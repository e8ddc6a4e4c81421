/**
 * Key patterns as the key-value store interprets them in `KEYS pattern`, and
 * the decimal rendering that turns a numeric friend id into such a pattern.
 *
 * `*` matches any run of characters (possibly empty), `?` exactly one
 * character, every other character itself. The store's bracket classes
 * `[...]` and backslash escapes are not modelled; `Literal` keeps them out of
 * the patterns the lemmas speak about.
 */
module Glob {

  predicate Matches(pattern: string, key: string)
    decreases |pattern| + |key|
  {
    if pattern == [] then key == []
    else if pattern[0] == '*' then
      Matches(pattern[1..], key) || (key != [] && Matches(pattern, key[1..]))
    else if pattern[0] == '?' then
      key != [] && Matches(pattern[1..], key[1..])
    else
      key != [] && key[0] == pattern[0] && Matches(pattern[1..], key[1..])
  }

  /** A pattern with no character the store treats specially. */
  predicate Literal(p: string) {
    forall i :: 0 <= i < |p| ==> p[i] != '*' && p[i] != '?' && p[i] != '[' && p[i] != '\\'
  }

  predicate IsSuffix(p: string, s: string) {
    |p| <= |s| && s[|s| - |p|..] == p
  }

  /** A literal pattern matches exactly the key spelled the same way. */
  lemma {:induction false} LiteralMatchesItself(p: string, key: string)
    requires Literal(p)
    ensures Matches(p, key) <==> key == p
  {
    if p != [] && key != [] {
      assert Literal(p[1..]) by {
        forall i | 0 <= i < |p[1..]| ensures p[1..][i] != '*' && p[1..][i] != '?' && p[1..][i] != '[' && p[1..][i] != '\\' {
          assert p[1..][i] == p[i + 1];
        }
      }
      LiteralMatchesItself(p[1..], key[1..]);
      assert key == [key[0]] + key[1..];
      assert p == [p[0]] + p[1..];
    }
  }

  /** The pattern `*` (used to list every key) matches every key. */
  lemma {:induction false} StarMatchesEverything(key: string)
    ensures Matches("*", key)
  {
    if key != [] {
      StarMatchesEverything(key[1..]);
    }
  }

  /** `p*` with a literal `p` is a prefix test: this is how `{id}*` finds a record. */
  lemma {:induction false} PrefixPattern(p: string, key: string)
    requires Literal(p)
    ensures Matches(p + "*", key) <==> p <= key
  {
    if p == [] {
      assert p + "*" == "*";
      StarMatchesEverything(key);
    } else {
      assert (p + "*")[1..] == p[1..] + "*";
      assert Literal(p[1..]) by {
        forall i | 0 <= i < |p[1..]| ensures p[1..][i] != '*' && p[1..][i] != '?' && p[1..][i] != '[' && p[1..][i] != '\\' {
          assert p[1..][i] == p[i + 1];
        }
      }
      if key != [] {
        PrefixPattern(p[1..], key[1..]);
        assert p <= key <==> key[0] == p[0] && p[1..] <= key[1..];
      }
    }
  }

  /** `*p` with a literal `p` is a suffix test: this is how `*luke` finds the hero. */
  lemma {:induction false} SuffixPattern(p: string, key: string)
    requires Literal(p)
    ensures Matches("*" + p, key) <==> IsSuffix(p, key)
    decreases |key|
  {
    assert ("*" + p)[0] == '*' && ("*" + p)[1..] == p;
    LiteralMatchesItself(p, key);
    if key != [] {
      SuffixPattern(p, key[1..]);
      assert IsSuffix(p, key) <==> key == p || IsSuffix(p, key[1..]) by {
        if |p| <= |key[1..]| {
          assert key[|key| - |p|..] == key[1..][|key[1..]| - |p|..];
        }
      }
    }
  }

  function DigitChar(d: nat): (c: char)
    requires d < 10
    ensures '0' <= c <= '9'
  {
    ('0' as int + d) as char
  }

  predicate AllDigits(s: string) {
    forall i :: 0 <= i < |s| ==> '0' <= s[i] <= '9'
  }

  /** The number a string of decimal digits denotes. */
  function DecimalValue(s: string): nat
    requires AllDigits(s)
  {
    if s == [] then 0
    else DecimalValue(s[..|s| - 1]) * 10 + (s[|s| - 1] as int - '0' as int)
  }

  /** `format!("{}", n)` for an unsigned integer: decimal digits, no leading zero. */
  function Decimal(n: nat): (s: string)
    ensures |s| >= 1 && AllDigits(s) && Literal(s)
    ensures s[0] == '0' ==> n == 0
  {
    if n < 10 then [DigitChar(n)] else Decimal(n / 10) + [DigitChar(n % 10)]
  }

  /** Reading the rendered digits back gives the id: distinct ids give distinct patterns. */
  lemma {:induction false} DecimalRoundTrip(n: nat)
    ensures DecimalValue(Decimal(n)) == n
  {
    if n >= 10 {
      DecimalRoundTrip(n / 10);
      var s := Decimal(n);
      assert s[..|s| - 1] == Decimal(n / 10);
    }
  }

  lemma DecimalInjective(m: nat, n: nat)
    requires Decimal(m) == Decimal(n)
    ensures m == n
  {
    DecimalRoundTrip(m);
    DecimalRoundTrip(n);
  }
}
