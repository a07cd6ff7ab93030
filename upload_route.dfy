/**
 * The stored name and public URL of an uploaded file (src/app/api/upload/route.ts):
 * `sanitize` replaces every maximal run of characters outside `[A-Za-z0-9.\-]` by one
 * `_`, and the file is stored as `<timestamp>-<sanitized name>` under `/uploads/`.
 * The timestamp (`Date.now()`) is a parameter; reading the form and writing the file
 * are not modelled.
 */
module UploadRoute {
  import opened JsNumber
  import Seqs

  /**
   * The characters the pattern `[^a-z0-9.\\-]` with the `i` flag leaves alone: ASCII
   * letters of either case, digits, `.`, `\` and `-`. A non-Unicode case-insensitive
   * pattern folds no other character onto these.
   */
  predicate Allowed(c: char)
  {
    ('a' <= c <= 'z') || ('A' <= c <= 'Z') || ('0' <= c <= '9') || c == '.' || c == '\\' || c == '-'
  }

  /** `s` without its leading run of disallowed characters. */
  function SkipRun(s: string): (r: string)
    ensures |r| <= |s|
    ensures r == [] || Allowed(r[0])
  {
    if s != [] && !Allowed(s[0]) then SkipRun(s[1..]) else s
  }

  /** `name.replace(/[^a-z0-9.\\-]+/gi, "_")`: the leftmost longest run is replaced, then the search resumes after it. */
  function Sanitize(s: string): (r: string)
    ensures |r| <= |s|
    ensures forall i :: 0 <= i < |r| ==> Allowed(r[i]) || r[i] == '_'
    decreases |s|
  {
    if s == [] then []
    else if Allowed(s[0]) then [s[0]] + Sanitize(s[1..])
    else "_" + Sanitize(SkipRun(s[1..]))
  }

  /** The characters of `s` that are allowed, in order. */
  function AllowedPart(s: string): (r: string)
    ensures |r| <= |s|
  {
    Seqs.Filter(s, Allowed)
  }

  /** Skipping a run drops no allowed character. */
  lemma {:induction false} SkipRunKeepsAllowed(s: string)
    ensures AllowedPart(SkipRun(s)) == AllowedPart(s)
  {
    if s != [] && !Allowed(s[0]) {
      SkipRunKeepsAllowed(s[1..]);
    }
  }

  /** Allowed characters are kept, in their original order, and every other character is `_`. */
  lemma {:induction false} SanitizeKeepsAllowed(s: string)
    ensures AllowedPart(Sanitize(s)) == AllowedPart(s)
    decreases |s|
  {
    if s != [] {
      if Allowed(s[0]) {
        SanitizeKeepsAllowed(s[1..]);
        assert ([s[0]] + Sanitize(s[1..]))[1..] == Sanitize(s[1..]);
      } else {
        var t := SkipRun(s[1..]);
        SanitizeKeepsAllowed(t);
        SkipRunKeepsAllowed(s[1..]);
        assert ("_" + Sanitize(t))[1..] == Sanitize(t);
      }
    }
  }

  /** No two `_` are adjacent: a run, `_` characters included, becomes a single `_`. */
  predicate NoDoubleUnderscore(r: string)
  {
    forall i :: 0 <= i < |r| - 1 ==> !(r[i] == '_' && r[i + 1] == '_')
  }

  lemma {:induction false} SanitizeNoDoubleUnderscore(s: string)
    ensures NoDoubleUnderscore(Sanitize(s))
    ensures Sanitize(s) != [] && Sanitize(s)[0] == '_' ==> s != [] && !Allowed(s[0])
    decreases |s|
  {
    if s != [] {
      if Allowed(s[0]) {
        SanitizeNoDoubleUnderscore(s[1..]);
        var r := Sanitize(s[1..]);
        assert forall i :: 1 <= i < |r| + 1 ==> ([s[0]] + r)[i] == r[i - 1];
      } else {
        var t := SkipRun(s[1..]);
        SanitizeNoDoubleUnderscore(t);
        var r := Sanitize(t);
        assert forall i :: 1 <= i < |r| + 1 ==> ("_" + r)[i] == r[i - 1];
      }
    }
  }

  /** A run of disallowed characters followed by an allowed one (or the end) becomes one `_`. */
  lemma {:induction false} SanitizeRun(run: string, rest: string)
    requires run != [] && forall i :: 0 <= i < |run| ==> !Allowed(run[i])
    requires rest == [] || Allowed(rest[0])
    ensures Sanitize(run + rest) == "_" + Sanitize(rest)
  {
    assert (run + rest)[0] == run[0];
    assert (run + rest)[1..] == run[1..] + rest;
    SkipWholeRun(run[1..], rest);
  }

  lemma {:induction false} SkipWholeRun(run: string, rest: string)
    requires forall i :: 0 <= i < |run| ==> !Allowed(run[i])
    requires rest == [] || Allowed(rest[0])
    ensures SkipRun(run + rest) == rest
  {
    if run == [] {
      assert run + rest == rest;
    } else {
      assert (run + rest)[1..] == run[1..] + rest;
      SkipWholeRun(run[1..], rest);
    }
  }

  /** An allowed character is copied and sanitizing goes on after it. */
  lemma SanitizeAllowed(c: char, rest: string)
    requires Allowed(c)
    ensures Sanitize([c] + rest) == [c] + Sanitize(rest)
  {
    assert ([c] + rest)[1..] == rest;
  }

  /** Sanitizing a sanitized name changes nothing. */
  lemma {:induction false} SanitizeIdempotent(s: string)
    ensures Sanitize(Sanitize(s)) == Sanitize(s)
    decreases |s|
  {
    if s != [] {
      if Allowed(s[0]) {
        SanitizeIdempotent(s[1..]);
        SanitizeAllowed(s[0], Sanitize(s[1..]));
      } else {
        var t := SkipRun(s[1..]);
        SanitizeIdempotent(t);
        SanitizeNoDoubleUnderscore(t);
        var r := Sanitize(t);
        // `r` does not start with `_`, since `t` is empty or starts with an allowed character
        assert r == [] || Allowed(r[0]);
        SanitizeRun("_", r);
      }
    }
  }

  /** The empty name stays empty and a non-empty name gives a non-empty one. */
  lemma SanitizeEmpty(s: string)
    ensures Sanitize(s) == [] <==> s == []
  {
  }

  /** `${Date.now()}-${sanitize(file.name)}`. */
  function StoredName(timestamp: nat, name: string): string
  {
    DecimalString(timestamp) + "-" + Sanitize(name)
  }

  /** `/uploads/${filename}`. */
  function UploadUrl(timestamp: nat, name: string): string
  {
    "/uploads/" + StoredName(timestamp, name)
  }

  /**
   * The stored name contains no `/`, and the URL is the uploads path followed by the stored
   * name. A `\` is an allowed character and survives sanitising, so where `\` also
   * separates paths the stored name can still hold separators.
   */
  lemma StoredNameIsPlain(timestamp: nat, name: string)
    ensures forall i :: 0 <= i < |StoredName(timestamp, name)| ==> StoredName(timestamp, name)[i] != '/'
    ensures UploadUrl(timestamp, name)[..9] == "/uploads/"
    ensures UploadUrl(timestamp, name)[9..] == StoredName(timestamp, name)
  {
    var d := DecimalString(timestamp);
    var n := StoredName(timestamp, name);
    forall i | 0 <= i < |n|
      ensures n[i] != '/'
    {
      if i < |d| {
        assert n[i] == d[i] && IsDigit(d[i]);
      } else if i > |d| {
        assert n[i] == Sanitize(name)[i - |d| - 1];
      }
    }
  }

  /** The timestamp can be read back from the stored name: it is the leading digits. */
  lemma StoredNameTimestamp(timestamp: nat, name: string)
    ensures var n := StoredName(timestamp, name);
      var k := DigitRun(n);
      && k < |n| && n[k] == '-' && DigitsValue(n[..k]) == timestamp
      && n[k + 1..] == Sanitize(name)
  {
    var d := DecimalString(timestamp);
    var rest := "-" + Sanitize(name);
    var n := StoredName(timestamp, name);
    assert n == d + rest;
    DigitRunConcat(d, rest);
    assert DigitRun(n) == |d|;
    assert n[..|d|] == d;
    assert n[|d|] == rest[0] == '-';
    assert n[|d| + 1..] == rest[1..] == Sanitize(name);
    DecimalStringRoundTrip(timestamp);
  }
}
