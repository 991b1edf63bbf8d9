/**
 * miniconf::Value: a tagged container for an int, a double, a bool or a character string,
 * with an UNKNOWN tag for "empty or invalid".
 *
 * `Value` is the content of a Value object as the rest of the engine uses it: a sum type, so
 * the tag always agrees with the payload. `ValueVar` is the C++ object itself, whose tag and
 * buffer the constructors and assignment operators change in place; it is the only place
 * where a tag without a buffer (a moved-from Value) can be seen.
 */
module Values {
  import opened Wrappers
  import opened CNumbers
  import CText

  /** Value::DataType. */
  datatype DataType = UNKNOWN | INT | NUMBER | BOOL | STRING

  /** The content of a Value whose buffer is in place (or that never had one, for UNKNOWN). */
  datatype Value = Unknown | Int(i: int32) | Number(d: Double) | Bool(b: bool) | Str(s: string)
  {
    /** Value::type(): the tag. */
    function Type(): (t: DataType)
      ensures t == UNKNOWN <==> Unknown?
    {
      match this
      case Unknown => UNKNOWN
      case Int(_) => INT
      case Number(_) => NUMBER
      case Bool(_) => BOOL
      case Str(_) => STRING
    }

    /** Value::isEmpty() of a value with its buffer in place: only UNKNOWN is empty. */
    predicate IsEmpty()
    {
      Unknown?
    }

    /** Value::getString() and getCharArray(): the buffer read as a C string, up to its first NUL. */
    function GetString(): (r: string)
      requires Str?
      ensures r <= s && '\0' !in r
      ensures '\0' !in s ==> r == s
    {
      CText.CStr(s)
    }
  }

  /** Value(const char*) and operator=(const char*): strlen stops at the first NUL. */
  function FromCString(s: string): (v: Value)
    ensures v.Str? && v.GetString() == CText.CStr(s)
    ensures '\0' !in s ==> v == Str(s)
  {
    Str(CText.CStr(s))
  }

  /**
   * Value::print(). Every scalar is written with snprintf into a 31-byte buffer, which keeps at
   * most 30 characters: a NUMBER's "%f" text (`lib.formatDouble`) is cut there, while "%d" of a
   * 32-bit int never reaches that length. UNKNOWN prints as the empty string: "null" is only
   * written to the scratch buffer, which is never returned.
   */
  function Print(v: Value, lib: CLib): (r: string)
    ensures v.Unknown? ==> r == ""
    ensures v.Int? ==> r == FormatInt(v.i)
    ensures v.Number? ==> |r| <= 30 && r <= lib.formatDouble(v.d) && (|r| == 30 || r == lib.formatDouble(v.d))
    ensures v.Bool? ==> (r == "true" <==> v.b) && (r == "false" <==> !v.b)
    ensures v.Str? ==> |r| >= 2 && r[0] == '"' && r[|r| - 1] == '"' && r[1..|r| - 1] == v.GetString()
  {
    match v
    case Unknown => ""
    case Int(i) => FormatInt(i)
    case Number(d) => var full := lib.formatDouble(d); if |full| <= 30 then full else full[..30]
    case Bool(b) => if b then "true" else "false"
    case Str(_) => "\"" + v.GetString() + "\""
  }

  /** An INT prints as a text that sscanf("%d") reads back as the same number. */
  lemma PrintedIntReadsBack(v: Value, lib: CLib)
    requires v.Int?
    ensures ScanInt(Print(v, lib)) == Some(v.i)
  {
    ScanFormattedInt(v.i, "");
    assert FormatInt(v.i) + "" == FormatInt(v.i);
  }

  /**
   * The name Value::printType() gives each tag: an upper-case word, the tag's own name except
   * for BOOL, which is printed as BOOLEAN.
   */
  function TypeName(t: DataType): (r: string)
    ensures |r| >= 3 && forall i :: 0 <= i < |r| ==> 'A' <= r[i] <= 'Z'
    ensures r == "BOOLEAN" <==> t == BOOL
  {
    match t
    case UNKNOWN => "UNKNOWN"
    case INT => "INT"
    case NUMBER => "NUMBER"
    case BOOL => "BOOLEAN"
    case STRING => "STRING"
  }

  /** Value::printType(): the tag's name; no two tags share a name. */
  function PrintType(v: Value): (r: string)
    ensures forall t :: TypeName(t) == r <==> t == v.Type()
  {
    TypeName(v.Type())
  }

  /**
   * A Value object: its tag `type` and its buffer, None standing for a null `_data`.
   * The byte size `_size` and the raw allocation are not modelled.
   */
  class ValueVar {
    var tag: DataType
    var buffer: Maybe<Value>

    /** The buffer, when there is one, holds a payload of the tagged tag. */
    ghost predicate Valid()
      reads this
    {
      buffer.Some? ==> buffer.value.Type() == tag && !buffer.value.Unknown?
    }

    /** Value::isEmpty(): no buffer, or the UNKNOWN tag. */
    predicate IsEmpty()
      reads this
    {
      buffer.None? || tag == UNKNOWN
    }

    /** The buffer may be read: printing or copying a moved-from value reads through a null pointer. */
    predicate Readable()
      reads this
    {
      tag == UNKNOWN || buffer.Some?
    }

    /** What the object holds, as a Value. */
    function Current(): (v: Value)
      reads this
      requires Valid() && Readable()
      ensures v.Type() == tag
      ensures v.IsEmpty() == IsEmpty()
    {
      if tag == UNKNOWN then Unknown else buffer.value
    }

    /** Value() and Value::unknown(): UNKNOWN tag, no buffer. */
    constructor ()
      ensures Valid() && tag == UNKNOWN && buffer == None
      ensures IsEmpty()
    {
      tag := UNKNOWN;
      buffer := None;
    }

    /**
     * Value(const int&), Value(const double&), Value(const bool&), Value(const std::string&):
     * the tag of the argument's tag and a fresh buffer holding it. (Value(const char*) is
     * this constructor applied to FromCString.)
     */
    constructor Of(v: Value)
      requires !v.Unknown?
      ensures Valid() && Readable() && Current() == v
      ensures !IsEmpty()
    {
      tag := v.Type();
      buffer := Some(v);
    }

    /**
     * Value(const Value&): the same tag and payload in a buffer of its own. Copying an UNKNOWN
     * value allocates a zero-byte buffer, which the model does not distinguish from none.
     */
    constructor Copy(other: ValueVar)
      requires other.Valid() && other.Readable()
      ensures Valid() && Readable()
      ensures tag == other.tag && buffer == other.buffer
      ensures Current() == other.Current()
    {
      tag := other.tag;
      buffer := other.buffer;
    }

    /** Value(Value&&): takes over the other's buffer and leaves it with none (so it is empty). */
    constructor Move(other: ValueVar)
      requires other.Valid()
      modifies other
      ensures Valid() && other.Valid()
      ensures tag == old(other.tag) && buffer == old(other.buffer)
      ensures other.tag == old(other.tag) && other.buffer == None
      ensures other.IsEmpty()
    {
      tag := other.tag;
      buffer := other.buffer;
      other.buffer := None;
    }

    /**
     * operator=(const Value&): releases the buffer and copies the other's. Self-assignment
     * reads the buffer just released, so the source requires distinct objects.
     */
    method AssignCopy(other: ValueVar)
      requires other != this
      requires other.Valid() && other.Readable()
      modifies this
      ensures Valid() && Readable()
      ensures tag == other.tag && buffer == other.buffer
      ensures Current() == other.Current()
    {
      tag := other.tag;
      buffer := other.buffer;
    }

    /**
     * operator=(Value&&): takes the other's tag and buffer and sets the other's buffer to null.
     * Moving an object into itself therefore leaves it without a buffer.
     */
    method AssignMove(other: ValueVar)
      requires Valid() && other.Valid()
      modifies this, other
      ensures Valid() && other.Valid()
      ensures tag == old(other.tag)
      ensures other != this ==> buffer == old(other.buffer)
      ensures other.tag == old(other.tag) && other.buffer == None
      ensures other.IsEmpty()
    {
      tag := other.tag;
      buffer := other.buffer;
      other.buffer := None;
    }

    /**
     * operator=(const int&), (const double&), (const bool&), (const std::string&): a fresh buffer
     * holding the argument, tagged with its tag.
     */
    method Assign(v: Value)
      requires !v.Unknown?
      modifies this
      ensures Valid() && Readable() && Current() == v
      ensures !IsEmpty()
    {
      tag := v.Type();
      buffer := Some(v);
    }

    /** getInt(): reads the buffer as an int without looking at the tag, so the tag must be INT. */
    function GetInt(): (i: int32)
      reads this
      requires Valid() && tag == INT && buffer.Some?
      ensures Current() == Int(i)
    {
      buffer.value.i
    }

    /** getNumber(), for the NUMBER tag. */
    function GetNumber(): (d: Double)
      reads this
      requires Valid() && tag == NUMBER && buffer.Some?
      ensures Current() == Number(d)
    {
      buffer.value.d
    }

    /** getBoolean(), for the BOOL tag. */
    function GetBoolean(): (b: bool)
      reads this
      requires Valid() && tag == BOOL && buffer.Some?
      ensures Current() == Bool(b)
    {
      buffer.value.b
    }

    /** getString() and getCharArray(), for the STRING tag: the text up to the first NUL. */
    function GetString(): (s: string)
      reads this
      requires Valid() && tag == STRING && buffer.Some?
      ensures Current().Str? && s == Current().GetString()
    {
      buffer.value.GetString()
    }
  }

  /** A copy is independent: assigning to it afterwards leaves the original as it was. */
  method CopyIsIndependent(original: ValueVar, v: Value) returns (copy: ValueVar)
    requires original.Valid() && original.Readable()
    requires !v.Unknown?
    ensures fresh(copy) && copy.Valid() && copy.Readable() && copy.Current() == v
    ensures unchanged(original)
  {
    copy := new ValueVar.Copy(original);
    copy.Assign(v);
  }
}
