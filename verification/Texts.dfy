/** Python's `str.strip`, of ASCII. */
module Texts {
  predicate IsSpace(c: char) {
    c == ' ' || '\t' <= c <= '\r' || 28 as char <= c <= 31 as char
  }

  function StripLeft(s: string): string {
    if s != "" && IsSpace(s[0]) then StripLeft(s[1..]) else s
  }

  function StripRight(s: string): string {
    if s != "" && IsSpace(s[|s| - 1]) then StripRight(s[..|s| - 1]) else s
  }

  function Strip(s: string): string { StripRight(StripLeft(s)) }

  predicate AllSpaces(s: string) {
    forall i :: 0 <= i < |s| ==> IsSpace(s[i])
  }

  /** No space at either end. */
  predicate Trim(s: string) {
    s == "" || (!IsSpace(s[0]) && !IsSpace(s[|s| - 1]))
  }

  lemma {:induction false} StripLeftIs(s: string) returns (a: string)
    ensures AllSpaces(a) && s == a + StripLeft(s)
    ensures StripLeft(s) != "" ==> !IsSpace(StripLeft(s)[0])
  {
    a := "";
    if s != "" && IsSpace(s[0]) {
      var b := StripLeftIs(s[1..]);
      a := [s[0]] + b;
    }
  }

  lemma {:induction false} StripRightIs(s: string) returns (b: string)
    ensures AllSpaces(b) && s == StripRight(s) + b
    ensures StripRight(s) != "" ==> !IsSpace(StripRight(s)[|StripRight(s)| - 1])
  {
    b := "";
    if s != "" && IsSpace(s[|s| - 1]) {
      var a := StripRightIs(s[..|s| - 1]);
      b := a + [s[|s| - 1]];
    }
  }

  /** What is left has no space at its ends, and only spaces were taken from them. */
  lemma StripIs(s: string) returns (a: string, b: string)
    ensures s == a + Strip(s) + b && AllSpaces(a) && AllSpaces(b) && Trim(Strip(s))
  {
    a := StripLeftIs(s);
    var rest := StripLeft(s);
    b := StripRightIs(rest);
    assert Strip(s) != "" ==> Strip(s)[0] == rest[0];
  }

  /** No other text is left of it: `strip` is determined by this. */
  lemma {:induction false} StripsTo(a: string, t: string, b: string)
    requires AllSpaces(a) && AllSpaces(b) && Trim(t)
    ensures Strip(a + t + b) == t
  {
    if t == "" {
      assert a + t + b == a + b;
      SpacesGo(a + b);
    } else {
      LeftGoes(a, t + b);
      assert a + t + b == a + (t + b);
      RightGoes(t, b);
    }
  }

  ghost predicate Around(s: string, a: string, t: string, b: string) {
    s == a + t + b && AllSpaces(a) && AllSpaces(b)
  }

  /** The text is this one, which has no space at its ends, with spaces around it. */
  ghost predicate StripsFrom(s: string, t: string) {
    Trim(t) && exists a, b :: Around(s, a, t, b)
  }

  lemma StripIff(s: string, t: string)
    ensures Strip(s) == t <==> StripsFrom(s, t)
  {
    hide Strip;
    var a, b := StripIs(s);
    assert Around(s, a, Strip(s), b);
    if StripsFrom(s, t) {
      var c, d :| Around(s, c, t, d);
      StripsTo(c, t, d);
    }
  }

  lemma {:induction false} SpacesGo(s: string)
    requires AllSpaces(s)
    ensures StripLeft(s) == ""
  {
    if s != "" { SpacesGo(s[1..]); }
  }

  lemma {:induction false} LeftGoes(a: string, t: string)
    requires AllSpaces(a) && t != "" && !IsSpace(t[0])
    ensures StripLeft(a + t) == t
  {
    if a == "" {
      assert a + t == t;
    } else {
      assert (a + t)[1..] == a[1..] + t;
      LeftGoes(a[1..], t);
    }
  }

  lemma {:induction false} RightGoes(t: string, b: string)
    requires AllSpaces(b) && t != "" && !IsSpace(t[|t| - 1])
    ensures StripRight(t + b) == t
  {
    if b == "" {
      assert t + b == t;
    } else {
      assert (t + b)[..|t + b| - 1] == t + b[..|b| - 1];
      RightGoes(t, b[..|b| - 1]);
    }
  }
}
