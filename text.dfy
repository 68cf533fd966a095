/**
  The two string builtins the kiosk applies to scanned and typed text:
  Python's `str.strip()` and `str.replace('\r', '')`.

  Modelling assumption: whitespace is the ASCII part of Python's whitespace
  set, that is TAB, LF, VT, FF, CR (9 to 13), the four separators 28 to 31
  and SPACE (32). Non-ASCII whitespace (NBSP, U+2000 and the like) is not
  treated as whitespace here.

  The functions carry no postconditions of their own; what they guarantee
  is stated by the lemmas after each of them, so that code which only
  passes strings through them is not burdened with those facts.
 */
module Text {

  predicate IsSpace(c: char) {
    var n := c as int;
    n == 32 || 9 <= n <= 13 || 28 <= n <= 31
  }

  /** Every character of `s` is whitespace (this includes the empty string). */
  predicate AllSpace(s: string) {
    forall i :: 0 <= i < |s| ==> IsSpace(s[i])
  }

  /** `s` is empty or neither starts nor ends with whitespace. */
  predicate Trimmed(s: string) {
    s == [] || (!IsSpace(s[0]) && !IsSpace(s[|s| - 1]))
  }

  /** `str.lstrip()`. */
  function TrimStart(s: string): string {
    if |s| > 0 && IsSpace(s[0]) then TrimStart(s[1..]) else s
  }

  /** `str.lstrip()` drops the leading whitespace and nothing else. */
  lemma {:induction false} TrimStartSpec(s: string)
    ensures var r := TrimStart(s);
      && |r| <= |s| && r == s[|s| - |r|..]
      && AllSpace(s[..|s| - |r|])
      && (r == [] || !IsSpace(r[0]))
      && (r == [] <==> AllSpace(s))
  {
    if |s| > 0 && IsSpace(s[0]) {
      TrimStartSpec(s[1..]);
      var r := TrimStart(s[1..]);
      assert s[..|s| - |r|] == [s[0]] + s[1..][..|s| - 1 - |r|];
    }
  }

  /** `str.rstrip()`. */
  function TrimEnd(s: string): string {
    if |s| > 0 && IsSpace(s[|s| - 1]) then TrimEnd(s[..|s| - 1]) else s
  }

  /** `str.rstrip()` drops the trailing whitespace and nothing else. */
  lemma {:induction false} TrimEndSpec(s: string)
    ensures var r := TrimEnd(s);
      && |r| <= |s| && r == s[..|r|]
      && AllSpace(s[|r|..])
      && (r == [] || !IsSpace(r[|r| - 1]))
      && (r == [] <==> AllSpace(s))
  {
    if |s| > 0 && IsSpace(s[|s| - 1]) {
      TrimEndSpec(s[..|s| - 1]);
      var r := TrimEnd(s[..|s| - 1]);
      assert s[|r|..] == s[..|s| - 1][|r|..] + [s[|s| - 1]];
    }
  }

  /** `str.strip()`. */
  function Strip(s: string): string {
    TrimEnd(TrimStart(s))
  }

  /** `str.strip()` leaves no whitespace at either end, and is empty exactly when `s` is blank. */
  lemma StripSpec(s: string)
    ensures Trimmed(Strip(s))
    ensures Strip(s) == [] <==> AllSpace(s)
  {
    TrimStartSpec(s);
    TrimEndSpec(TrimStart(s));
  }

  /** A string with no whitespace at either end is left as it is. */
  lemma StripTrimmed(s: string)
    requires Trimmed(s)
    ensures Strip(s) == s
  {
  }

  /** Stripping twice is stripping once. */
  lemma StripIdempotent(s: string)
    ensures Strip(Strip(s)) == Strip(s)
  {
    StripSpec(s);
    StripTrimmed(Strip(s));
  }

  /** Stripping only removes characters: one absent from `s` is absent from `Strip(s)`. */
  lemma StripKeepsOut(s: string, c: char)
    requires c !in s
    ensures c !in Strip(s)
  {
    TrimStartSpec(s);
    var t := TrimStart(s);
    TrimEndSpec(t);
    assert forall i :: 0 <= i < |t| ==> t[i] == s[|s| - |t| + i];
    assert forall i :: 0 <= i < |TrimEnd(t)| ==> TrimEnd(t)[i] == t[i];
  }

  /** `str.replace('\r', '')`. */
  function DropCarriageReturns(s: string): string {
    if |s| == 0 then []
    else (if s[0] == '\r' then [] else [s[0]]) + DropCarriageReturns(s[1..])
  }

  /** `str.replace('\r', '')` leaves no CR and never lengthens the text. */
  lemma {:induction false} DropCarriageReturnsSpec(s: string)
    ensures '\r' !in DropCarriageReturns(s)
    ensures |DropCarriageReturns(s)| <= |s|
  {
    if |s| > 0 {
      DropCarriageReturnsSpec(s[1..]);
    }
  }

  /** Removing CRs only removes characters: one absent from `s` stays absent. */
  lemma {:induction false} DropCarriageReturnsKeepsOut(s: string, c: char)
    requires c !in s
    ensures c !in DropCarriageReturns(s)
  {
    if |s| > 0 {
      assert c !in s[1..] by {
        assert forall i :: 0 <= i < |s| - 1 ==> s[1..][i] == s[i + 1];
      }
      DropCarriageReturnsKeepsOut(s[1..], c);
    }
  }

  lemma {:induction false} DropCarriageReturnsAppend(a: string, b: string)
    ensures DropCarriageReturns(a + b) == DropCarriageReturns(a) + DropCarriageReturns(b)
  {
    if |a| > 0 {
      assert (a + b)[1..] == a[1..] + b;
      DropCarriageReturnsAppend(a[1..], b);
    } else {
      assert a + b == b;
    }
  }

  /** Removing CRs from a string that neither starts nor ends with one keeps its two ends. */
  lemma DropCarriageReturnsKeepsEnds(s: string)
    requires |s| > 0 && s[0] != '\r' && s[|s| - 1] != '\r'
    ensures var r := DropCarriageReturns(s); |r| > 0 && r[0] == s[0] && r[|r| - 1] == s[|s| - 1]
  {
    if |s| > 1 {
      var mid := s[1..|s| - 1];
      assert s == [s[0]] + mid + [s[|s| - 1]];
      DropCarriageReturnsAppend([s[0]] + mid, [s[|s| - 1]]);
      DropCarriageReturnsAppend([s[0]], mid);
      assert DropCarriageReturns([s[|s| - 1]]) == [s[|s| - 1]] by {
        assert [s[|s| - 1]][1..] == [];
      }
      assert DropCarriageReturns([s[0]]) == [s[0]] by {
        assert [s[0]][1..] == [];
      }
    }
  }
}
