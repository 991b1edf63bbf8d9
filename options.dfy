/**
 * Config::Option: one option of the schema. Its setters change one field and return the
 * option for chaining; as a value, each returns the updated record.
 */
module Options {
  import opened Values

  datatype Option = Option(
    flag: string,
    shortflag: string,
    description: string,
    defaultValue: Value,
    required: bool,
    hidden: bool)
  {
    /** Option::type(): an option's declared type is the tag of its default value. */
    function Type(): DataType
    {
      defaultValue.Type()
    }

    /** Option::flag(const std::string&). */
    function WithFlag(f: string): (o: Option)
      ensures o.flag == f && o.(flag := flag) == this
      ensures o.Type() == Type()
    {
      this.(flag := f)
    }

    /** Option::shortflag(const std::string&). */
    function WithShortflag(s: string): (o: Option)
      ensures o.shortflag == s && o.(shortflag := shortflag) == this
      ensures o.Type() == Type()
    {
      this.(shortflag := s)
    }

    /** Option::description(const std::string&). */
    function WithDescription(d: string): (o: Option)
      ensures o.description == d && o.(description := description) == this
      ensures o.Type() == Type()
    {
      this.(description := d)
    }

    /**
     * Option::defaultValue, all overloads: the int, double, bool and std::string ones store
     * Int, Number, Bool or Str; the const char* one stores FromCString. This is the only setter
     * that changes the option's type.
     */
    function WithDefault(v: Value): (o: Option)
      ensures o.defaultValue == v && o.(defaultValue := defaultValue) == this
      ensures o.Type() == v.Type()
    {
      this.(defaultValue := v)
    }

    /** Option::required(bool). */
    function WithRequired(r: bool): (o: Option)
      ensures o.required == r && o.(required := required) == this
      ensures o.Type() == Type()
    {
      this.(required := r)
    }

    /** Option::hidden(bool): a hidden option's value is erased after parsing. */
    function WithHidden(h: bool): (o: Option)
      ensures o.hidden == h && o.(hidden := hidden) == this
      ensures o.Type() == Type()
    {
      this.(hidden := h)
    }
  }

  /** Option(): empty texts, no default (so UNKNOWN type), optional, visible. */
  function NewOption(): (o: Option)
    ensures o.Type() == UNKNOWN && o.defaultValue.IsEmpty()
    ensures !o.required && !o.hidden
    ensures o.flag == "" && o.shortflag == "" && o.description == ""
  {
    Option("", "", "", Unknown, false, false)
  }
}
