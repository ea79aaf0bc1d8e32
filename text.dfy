/** Character classes and string operations of Python's `str` that the
    modelled code relies on.  Case mapping is modelled on ASCII letters only. */
module Text {

  /** The characters `str.isspace()` accepts; `str.strip()` and the regular
      expression class `\s` both use this set. */
  predicate IsSpace(c: char)
  {
    c == ' ' || ('\t' <= c <= '\r') || ('\U{1c}' <= c <= '\U{1f}') || c == '\U{85}'
    || c == '\U{a0}' || c == '\U{1680}' || ('\U{2000}' <= c <= '\U{200a}')
    || c == '\U{2028}' || c == '\U{2029}' || c == '\U{202f}' || c == '\U{205f}'
    || c == '\U{3000}'
  }

  predicate IsDigit(c: char) { '0' <= c <= '9' }

  predicate IsUpper(c: char) { 'A' <= c <= 'Z' }

  predicate IsLower(c: char) { 'a' <= c <= 'z' }

  predicate IsLetter(c: char) { IsUpper(c) || IsLower(c) }

  function ToLowerChar(c: char): (r: char)
    ensures !IsUpper(r)
    ensures IsUpper(c) ==> IsLower(r)
    ensures !IsUpper(c) ==> r == c
  {
    if IsUpper(c) then (c as int + 32) as char else c
  }

  function ToUpperChar(c: char): (r: char)
    ensures !IsLower(r)
    ensures IsLower(c) ==> IsUpper(r) && ToLowerChar(r) == c
    ensures !IsLower(c) ==> r == c
  {
    if IsLower(c) then (c as int - 32) as char else c
  }

  /** `str.lower()` */
  function Lower(s: string): (r: string)
    ensures |r| == |s|
    ensures forall i :: 0 <= i < |s| ==> r[i] == ToLowerChar(s[i])
  {
    if s == [] then [] else [ToLowerChar(s[0])] + Lower(s[1..])
  }

  lemma LowerAppend(a: string, b: string)
    ensures Lower(a + b) == Lower(a) + Lower(b)
  {
  }

  lemma LowerIdempotent(s: string)
    ensures Lower(Lower(s)) == Lower(s)
  {
    assert forall i :: 0 <= i < |s| ==> Lower(Lower(s))[i] == Lower(s)[i];
  }

  function TrimLeft(s: string): (r: string)
    ensures |r| <= |s| && r == s[|s| - |r|..]
    ensures r != [] ==> !IsSpace(r[0])
    ensures forall i :: 0 <= i < |s| - |r| ==> IsSpace(s[i])
  {
    if s != [] && IsSpace(s[0]) then TrimLeft(s[1..]) else s
  }

  function TrimRight(s: string): (r: string)
    ensures |r| <= |s| && r == s[..|r|]
    ensures r != [] ==> !IsSpace(r[|r| - 1])
    ensures forall i :: |r| <= i < |s| ==> IsSpace(s[i])
  {
    if s != [] && IsSpace(s[|s| - 1]) then TrimRight(s[..|s| - 1]) else s
  }

  /** `str.strip()` with no argument. */
  function Strip(s: string): (r: string)
  {
    TrimRight(TrimLeft(s))
  }

  lemma StripEmptyIffAllSpace(s: string)
    ensures Strip(s) == [] <==> forall i :: 0 <= i < |s| ==> IsSpace(s[i])
  {
    var l := TrimLeft(s);
    if l != [] {
      assert s[|s| - |l|] == l[0];
    }
  }

  predicate StartsWith(s: string, prefix: string)
  {
    |prefix| <= |s| && s[..|prefix|] == prefix
  }

  predicate EndsWith(s: string, suffix: string)
  {
    |suffix| <= |s| && s[|s| - |suffix|..] == suffix
  }

  /** `s.replace(pat, rep)` of Python: every non-overlapping occurrence of a
      non-empty `pat`, scanning left to right; an empty `pat` puts `rep`
      before every character and at the end. */
  function Replace(s: string, pat: string, rep: string): (r: string)
    decreases |s|
  {
    if pat == [] then
      (if s == [] then rep else rep + [s[0]] + Replace(s[1..], pat, rep))
    else if s == [] then []
    else if StartsWith(s, pat) then rep + Replace(s[|pat|..], pat, rep)
    else [s[0]] + Replace(s[1..], pat, rep)
  }

  /** Replacing a character that does not occur changes nothing. */
  lemma {:induction false} ReplaceAbsentChar(s: string, c: char, rep: string)
    requires c !in s
    ensures Replace(s, [c], rep) == s
  {
    if s != [] {
      assert s[0] != c;
      assert !StartsWith(s, [c]);
      ReplaceAbsentChar(s[1..], c, rep);
    }
  }

  /** A character occurring only at the very end is replaced there and
      nowhere else. */
  lemma {:induction false} ReplaceFinalChar(a: string, c: char, rep: string)
    requires c !in a
    ensures Replace(a + [c], [c], rep) == a + rep
  {
    var s := a + [c];
    if a == [] {
      assert s[..1] == [c] && s[1..] == [];
      assert Replace(s, [c], rep) == rep + Replace([], [c], rep);
    } else {
      assert s[0] == a[0] && a[0] != c;
      assert s[..1] != [c];
      assert s[1..] == a[1..] + [c];
      ReplaceFinalChar(a[1..], c, rep);
      calc {
        Replace(s, [c], rep);
        [s[0]] + Replace(s[1..], [c], rep);
        [a[0]] + (a[1..] + rep);
        { assert a == [a[0]] + a[1..]; }
        a + rep;
      }
    }
  }

  /** `s.split(sep)` with a one-character separator: the pieces between
      separators, empty ones included, so there is always at least one. */
  function Split(s: string, sep: char): (r: seq<string>)
    ensures |r| >= 1
    ensures forall i :: 0 <= i < |r| ==> sep !in r[i]
    ensures sep !in s ==> r == [s]
  {
    if s == [] then [[]]
    else if s[0] == sep then [[]] + Split(s[1..], sep)
    else
      var t := Split(s[1..], sep);
      assert sep !in s ==> sep !in s[1..] && [s[0]] + s[1..] == s;
      [[s[0]] + t[0]] + t[1..]
  }

  /** `sep.join(parts)` */
  function Join(parts: seq<string>, sep: string): (r: string)
    requires |parts| >= 1
  {
    if |parts| == 1 then parts[0] else parts[0] + sep + Join(parts[1..], sep)
  }

  /** Joining the pieces of a split with the separator gives back the string. */
  lemma {:induction false} JoinSplit(s: string, sep: char)
    ensures Join(Split(s, sep), [sep]) == s
  {
    if s != [] {
      JoinSplit(s[1..], sep);
      var t := Split(s[1..], sep);
      if s[0] == sep {
        assert Split(s, sep)[1..] == t;
      } else {
        var r := [[s[0]] + t[0]] + t[1..];
        if |t| == 1 {
          assert Join(r, [sep]) == [s[0]] + t[0];
        } else {
          assert r[1..] == t[1..];
          assert Join(t, [sep]) == t[0] + [sep] + Join(t[1..], [sep]);
        }
      }
    }
  }

  /** Non-negative integers in decimal, as Python's `str(n)`. */
  function NatToString(n: nat): (r: string)
    ensures |r| >= 1
    ensures forall i :: 0 <= i < |r| ==> IsDigit(r[i])
  {
    var d := ['0' + (n % 10) as char];
    if n < 10 then d else NatToString(n / 10) + d
  }

  /** `str(i)` for any integer. */
  function IntToString(i: int): (r: string)
  {
    if i < 0 then "-" + NatToString(-i) else NatToString(i)
  }
}
