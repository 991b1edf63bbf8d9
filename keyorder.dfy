/**
 * The order in which std::map<std::string, T> visits its keys.
 *
 * std::string compares character by character through char_traits<char>::lt, which compares
 * the characters as unsigned bytes; a proper prefix comes first. Every loop of the
 * configuration engine over its option or value maps, and every JSON object, follows this
 * order, so the model needs it to say which option is found "first" and in which order log
 * records and serialized lines appear.
 */
module KeyOrder {

  /** a <= b in std::string order. */
  predicate Below(a: string, b: string)
    decreases |a|
  {
    |a| == 0 || (|b| > 0 && (a[0] < b[0] || (a[0] == b[0] && Below(a[1..], b[1..]))))
  }

  /** a < b in std::string order. */
  predicate Less(a: string, b: string)
  {
    Below(a, b) && a != b
  }

  lemma {:induction false} BelowReflexive(a: string)
    ensures Below(a, a)
    decreases |a|
  {
    if |a| > 0 { BelowReflexive(a[1..]); }
  }

  lemma {:induction false} BelowAntisymmetric(a: string, b: string)
    requires Below(a, b) && Below(b, a)
    ensures a == b
    decreases |a|
  {
    if |a| > 0 { BelowAntisymmetric(a[1..], b[1..]); }
  }

  /** A prefix comes no later than the text it starts. */
  lemma {:induction false} PrefixBelow(a: string, b: string)
    requires a <= b
    ensures Below(a, b)
    decreases |a|
  {
    if |a| > 0 {
      assert a[1..] <= b[1..];
      PrefixBelow(a[1..], b[1..]);
    }
  }

  lemma {:induction false} BelowTransitive(a: string, b: string, c: string)
    requires Below(a, b) && Below(b, c)
    ensures Below(a, c)
    decreases |a|
  {
    if |a| > 0 && a[0] == b[0] && b[0] == c[0] { BelowTransitive(a[1..], b[1..], c[1..]); }
  }

  lemma {:induction false} BelowTotal(a: string, b: string)
    ensures Below(a, b) || Below(b, a)
    decreases |a|
  {
    if |a| > 0 && |b| > 0 && a[0] == b[0] { BelowTotal(a[1..], b[1..]); }
  }

  /** k is the first key of s in std::string order. */
  predicate IsLeast(k: string, s: set<string>)
  {
    k in s && forall j :: j in s ==> Below(k, j)
  }

  lemma LeastExists(s: set<string>)
    requires s != {}
    ensures exists k :: IsLeast(k, s)
    decreases s
  {
    var x :| x in s;
    if s == {x} {
      BelowReflexive(x);
      assert IsLeast(x, s);
    } else {
      LeastExists(s - {x});
      var y :| IsLeast(y, s - {x});
      BelowTotal(x, y);
      if Below(x, y) {
        forall j | j in s
          ensures Below(x, j)
        {
          if j == x { BelowReflexive(x); } else { BelowTransitive(x, y, j); }
        }
        assert IsLeast(x, s);
      } else {
        assert IsLeast(y, s);
      }
    }
  }

  lemma LeastUnique(s: set<string>)
    ensures forall a, b :: IsLeast(a, s) && IsLeast(b, s) ==> a == b
  {
    forall a, b | IsLeast(a, s) && IsLeast(b, s)
      ensures a == b
    {
      BelowAntisymmetric(a, b);
    }
  }

  /**
   * The key std::map::begin() designates: the least key of a non-empty key set. Iterating a
   * std::map visits Least(keys), then the rest of the keys in the same way.
   */
  function Least(s: set<string>): (k: string)
    requires s != {}
    ensures IsLeast(k, s)
  {
    LeastExists(s);
    LeastUnique(s);
    var k :| IsLeast(k, s);
    k
  }
}
