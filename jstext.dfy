/**
 * The JavaScript string operations the ledger relies on: `trim`, `toLowerCase` and
 * `includes`. Characters are Unicode scalar values.
 */
module JsText {

  /**
   * WhiteSpace and LineTerminator code points of ECMA-262 (sections 12.2 and 12.3):
   * the characters `String.prototype.trim` and `Number(str)` strip.
   */
  predicate IsWhiteSpace(c: char)
  {
    || c == '\t' || c == '\U{000B}' || c == '\U{000C}' || c == ' ' || c == '\U{00A0}'
    || c == '\U{FEFF}' || c == '\U{1680}' || ('\U{2000}' <= c <= '\U{200A}')
    || c == '\U{202F}' || c == '\U{205F}' || c == '\U{3000}'
    || c == '\n' || c == '\r' || c == '\U{2028}' || c == '\U{2029}'
  }

  /** `s` with its leading white space removed: the longest suffix not starting with white space. */
  function TrimStart(s: string): (r: string)
    ensures |r| <= |s|
    ensures r == [] || !IsWhiteSpace(r[0])
  {
    if s != [] && IsWhiteSpace(s[0]) then TrimStart(s[1..]) else s
  }

  /** The characters `TrimStart` keeps are the last ones of `s`, and the ones it drops are white space. */
  lemma {:induction false} TrimStartSuffix(s: string)
    ensures forall i :: 0 <= i < |TrimStart(s)| ==> TrimStart(s)[i] == s[|s| - |TrimStart(s)| + i]
    ensures forall i :: 0 <= i < |s| - |TrimStart(s)| ==> IsWhiteSpace(s[i])
  {
    if s != [] && IsWhiteSpace(s[0]) {
      TrimStartSuffix(s[1..]);
      assert forall i :: 1 <= i < |s| ==> s[1..][i - 1] == s[i];
    }
  }

  /** `s` with its trailing white space removed: the longest prefix not ending with white space. */
  function TrimEnd(s: string): (r: string)
    ensures |r| <= |s|
    ensures r == [] || !IsWhiteSpace(r[|r| - 1])
  {
    if s != [] && IsWhiteSpace(s[|s| - 1]) then TrimEnd(s[..|s| - 1]) else s
  }

  /** The characters `TrimEnd` keeps are the first ones of `s`, and the ones it drops are white space. */
  lemma {:induction false} TrimEndPrefix(s: string)
    ensures forall i :: 0 <= i < |TrimEnd(s)| ==> TrimEnd(s)[i] == s[i]
    ensures forall i :: |TrimEnd(s)| <= i < |s| ==> IsWhiteSpace(s[i])
  {
    if s != [] && IsWhiteSpace(s[|s| - 1]) {
      TrimEndPrefix(s[..|s| - 1]);
    }
  }

  /** `String.prototype.trim`. */
  function Trim(s: string): string
  {
    TrimEnd(TrimStart(s))
  }

  /** A trimmed string has no white space at either end. */
  predicate IsTrimmed(s: string)
  {
    s == [] || (!IsWhiteSpace(s[0]) && !IsWhiteSpace(s[|s| - 1]))
  }

  /**
   * `Trim(s)` is the slice of `s` between its leading and its trailing white space,
   * everything cut off is white space, and a string without white space at its ends is
   * left alone.
   */
  lemma TrimIsCore(s: string)
    ensures IsTrimmed(Trim(s))
    ensures exists i :: OccursAt(s, Trim(s), i)
    ensures IsTrimmed(s) ==> Trim(s) == s
  {
    TrimHasNoEdges(s);
    TrimIsSlice(s);
    if IsTrimmed(s) {
      TrimKeepsTrimmed(s);
    }
  }

  lemma TrimHasNoEdges(s: string)
    ensures IsTrimmed(Trim(s))
  {
    var t := TrimStart(s);
    TrimEndPrefix(t);
    if Trim(s) != [] {
      assert Trim(s)[0] == t[0];
    }
  }

  lemma TrimIsSlice(s: string)
    ensures OccursAt(s, Trim(s), |s| - |TrimStart(s)|)
  {
    var t := TrimStart(s);
    var r := TrimEnd(t);
    var i := |s| - |t|;
    TrimStartSuffix(s);
    TrimEndPrefix(t);
    forall k | 0 <= k < |r|
      ensures s[i..i + |r|][k] == r[k]
    {
      assert r[k] == t[k];
      assert t[k] == s[i + k];
    }
    assert s[i..i + |r|] == r;
  }

  lemma TrimKeepsTrimmed(s: string)
    requires IsTrimmed(s)
    ensures Trim(s) == s
  {
    assert TrimStart(s) == s;
    assert TrimEnd(s) == s;
  }

  /** Trimming twice is trimming once. */
  lemma TrimIdempotent(s: string)
    ensures Trim(Trim(s)) == Trim(s)
  {
    TrimIsCore(s);
    TrimIsCore(Trim(s));
  }

  /** A string is blank (`!s.trim()`) exactly when all its characters are white space. */
  lemma {:induction false} BlankIffAllWhiteSpace(s: string)
    ensures Trim(s) == [] <==> forall i :: 0 <= i < |s| ==> IsWhiteSpace(s[i])
  {
    var t := TrimStart(s);
    TrimStartSuffix(s);
    TrimEndPrefix(t);
    if Trim(s) != [] {
      assert !IsWhiteSpace(t[0]) && t[0] == s[|s| - |t|];
    }
  }

  /** `toLowerCase` restricted to the ASCII letters. */
  function LowerChar(c: char): char
  {
    if 'A' <= c <= 'Z' then (c as int - 'A' as int + 'a' as int) as char else c
  }

  function ToLower(s: string): (r: string)
    ensures |r| == |s| && forall i :: 0 <= i < |s| ==> r[i] == LowerChar(s[i])
  {
    seq(|s|, i requires 0 <= i < |s| => LowerChar(s[i]))
  }

  /** No upper-case ASCII letter is left, so lowering twice is lowering once. */
  lemma ToLowerIdempotent(s: string)
    ensures ToLower(ToLower(s)) == ToLower(s)
    ensures forall i :: 0 <= i < |s| ==> !('A' <= ToLower(s)[i] <= 'Z')
  {
  }

  /** `q` occurs in `s` starting at position `i`. */
  predicate OccursAt(s: string, q: string, i: int)
  {
    0 <= i && i + |q| <= |s| && s[i..i + |q|] == q
  }

  /** `String.prototype.includes`: `q` occurs somewhere in `s` (the empty string occurs everywhere). */
  function Includes(s: string, q: string): (r: bool)
    ensures r <==> exists i :: OccursAt(s, q, i)
    decreases |s|
  {
    if q <= s then
      assert OccursAt(s, q, 0);
      true
    else if s == [] then
      assert forall i :: !OccursAt(s, q, i);
      false
    else
      var r := Includes(s[1..], q);
      assert forall i :: OccursAt(s[1..], q, i) <==> OccursAt(s, q, i + 1);
      assert !OccursAt(s, q, 0);
      assert r ==> exists i :: OccursAt(s, q, i) by {
        if r {
          var i :| OccursAt(s[1..], q, i);
          assert OccursAt(s, q, i + 1);
        }
      }
      assert (exists i :: OccursAt(s, q, i)) ==> r by {
        if exists i :: OccursAt(s, q, i) {
          var i :| OccursAt(s, q, i);
          assert i != 0;
          assert OccursAt(s[1..], q, i - 1);
        }
      }
      r
  }
}
