/**
 * The JavaScript and third-party primitives the catalog's controllers lean on.
 *
 * Whitespace trimming, `isAscii` and `String.prototype.indexOf` are given
 * concrete definitions, because properties of the controllers hinge on them.
 * HTML escaping, ISO-8601 and e-mail recognition, e-mail normalisation,
 * date parsing and date formatting are left uninterpreted: they are fields
 * of a `Primitives` value that every caller receives as a parameter.
 */
module Library {

  datatype Option<+T> = None | Some(value: T)

  /** A JavaScript `Date`, as milliseconds since the epoch. */
  type Time = int

  /** A MongoDB document id in its string form (`_id.toString()`). */
  type Id = string

  /** The uninterpreted library functions (validator.js and moment). */
  datatype Primitives = Primitives(
    escape: string -> string,           // validator's escape(): HTML-escape
    isISO8601: string -> bool,          // validator's isISO8601()
    isEmail: string -> bool,            // validator's isEmail()
    normalizeEmail: string -> string,   // validator's normalizeEmail()
    toDate: string -> Option<Time>,     // validator's toDate(): None for null
    format: (Time, string) -> string    // moment.utc(t).format(pattern)
  )

  /** The characters JavaScript's `\s` class matches; validator's trim() strips them. */
  predicate IsSpace(c: char)
  {
    c == ' ' || c == '\t' || c == '\n' || c == '\r' || c == '\U{B}' || c == '\U{C}'
    || c == '\U{A0}' || c == '\U{1680}' || ('\U{2000}' <= c <= '\U{200A}')
    || c == '\U{2028}' || c == '\U{2029}' || c == '\U{202F}' || c == '\U{205F}'
    || c == '\U{3000}' || c == '\U{FEFF}'
  }

  predicate AllSpace(s: string)
  {
    forall i :: 0 <= i < |s| ==> IsSpace(s[i])
  }

  /** Strips leading whitespace: the `^\s+` half of trim(). */
  function TrimStart(s: string): string
  {
    if |s| > 0 && IsSpace(s[0]) then TrimStart(s[1..]) else s
  }

  /**
   * TrimStart keeps a suffix of its input that does not start with
   * whitespace, and what it removes is whitespace only.
   */
  lemma {:induction false} TrimStartShape(s: string)
    ensures |TrimStart(s)| <= |s| && TrimStart(s) == s[|s| - |TrimStart(s)|..]
    ensures TrimStart(s) == [] || !IsSpace(TrimStart(s)[0])
    ensures AllSpace(s[..|s| - |TrimStart(s)|])
  {
    if |s| > 0 && IsSpace(s[0]) {
      TrimStartShape(s[1..]);
      var n := |s| - |TrimStart(s)|;
      assert s[..n] == [s[0]] + s[1..][..n - 1];
    }
  }

  /** Strips trailing whitespace: the `\s+$` half of trim(). */
  function TrimEnd(s: string): string
  {
    if |s| > 0 && IsSpace(s[|s| - 1]) then TrimEnd(s[..|s| - 1]) else s
  }

  /**
   * TrimEnd keeps a prefix of its input that does not end with whitespace,
   * and what it removes is whitespace only.
   */
  lemma {:induction false} TrimEndShape(s: string)
    ensures |TrimEnd(s)| <= |s| && TrimEnd(s) == s[..|TrimEnd(s)|]
    ensures TrimEnd(s) == [] || !IsSpace(TrimEnd(s)[|TrimEnd(s)| - 1])
    ensures AllSpace(s[|TrimEnd(s)|..])
  {
    if |s| > 0 && IsSpace(s[|s| - 1]) {
      var p := s[..|s| - 1];
      TrimEndShape(p);
      var n := |TrimEnd(s)|;
      assert s[n..] == p[n..] + [s[|s| - 1]];
    }
  }

  /**
   * The `.trim()` sanitizer: the input with every leading and trailing
   * whitespace character removed (TrimIsSlice states what that means).
   */
  function Trim(s: string): (r: string)
    ensures |r| <= |s|
  {
    TrimStartShape(s);
    TrimEndShape(TrimStart(s));
    TrimEnd(TrimStart(s))
  }

  /**
   * The trimmed value is a contiguous slice of the input whose margins are
   * whitespace only, and it neither starts nor ends with whitespace.
   */
  lemma TrimIsSlice(s: string) returns (i: nat)
    ensures i + |Trim(s)| <= |s|
    ensures Trim(s) == s[i..i + |Trim(s)|]
    ensures AllSpace(s[..i]) && AllSpace(s[i + |Trim(s)|..])
    ensures Trim(s) == [] || (!IsSpace(Trim(s)[0]) && !IsSpace(Trim(s)[|Trim(s)| - 1]))
  {
    var a := TrimStart(s);
    var b := TrimEnd(a);
    TrimStartShape(s);
    TrimEndShape(a);
    i := |s| - |a|;
    assert b == s[i..i + |b|];
    assert s[i + |b|..] == a[|b|..];
    if b != [] {
      assert b[0] == a[0];
    }
  }

  /** A value is empty after trimming exactly when it is whitespace only. */
  lemma {:induction false} TrimEmptyIffAllSpace(s: string)
    ensures Trim(s) == [] <==> AllSpace(s)
  {
    var r := Trim(s);
    var i := TrimIsSlice(s);
    if r == [] {
      forall k | 0 <= k < |s| ensures IsSpace(s[k]) {
        if k < i { assert s[k] == s[..i][k]; } else { assert s[k] == s[i..][k - i]; }
      }
    } else {
      assert s[i] == r[0];
    }
  }

  /** Trimming twice is trimming once. */
  lemma TrimIdempotent(s: string)
    ensures Trim(Trim(s)) == Trim(s)
  {
    var r := Trim(s);
    var _ := TrimIsSlice(s);
    TrimStartShape(r);
    TrimEndShape(r);
    assert TrimStart(r) == r;
    assert TrimEnd(r) == r;
  }

  /** A character of the regular-expression class `[a-zA-Z\-]`. */
  predicate LetterOrHyphen(c: char)
  {
    'a' <= c <= 'z' || 'A' <= c <= 'Z' || c == '-'
  }

  /** validator's isAscii(): `^[\x00-\x7F]+$`, so the empty string is not ASCII. */
  predicate IsAscii(s: string)
  {
    |s| > 0 && forall i :: 0 <= i < |s| ==> s[i] as int < 128
  }

  /** `Array.prototype.indexOf`: the first index holding `x`, or -1 when `x` is absent. */
  function IndexOfItem<T(==)>(s: seq<T>, x: T): (r: int)
    ensures -1 <= r < |s|
    ensures r >= 0 ==> s[r] == x && x !in s[..r]
    ensures r == -1 <==> x !in s
  {
    if |s| == 0 then -1
    else if s[0] == x then 0
    else
      var k := IndexOfItem(s[1..], x);
      if k == -1 then -1
      else
        assert s[..k + 1] == [s[0]] + s[1..][..k];
        k + 1
  }

  /** An index holding `x` with no earlier `x` is the index indexOf reports. */
  lemma {:induction false} IndexOfItemAt<T>(s: seq<T>, x: T, i: nat)
    requires i < |s| && s[i] == x && x !in s[..i]
    ensures IndexOfItem(s, x) == i
  {
    if i > 0 {
      assert s[0] == s[..i][0];
      assert s[1..][..i - 1] == s[..i][1..];
      IndexOfItemAt(s[1..], x, i - 1);
    }
  }

  predicate OccursAt(hay: string, needle: string, i: nat)
  {
    i + |needle| <= |hay| && hay[i..i + |needle|] == needle
  }

  function IndexFrom(hay: string, needle: string, i: nat): (r: int)
    requires i <= |hay|
    ensures r == -1 || (i <= r <= |hay| && OccursAt(hay, needle, r))
    ensures r >= 0 ==> forall j :: i <= j < r ==> !OccursAt(hay, needle, j)
    ensures r == -1 ==> forall j :: i <= j <= |hay| ==> !OccursAt(hay, needle, j)
    decreases |hay| - i
  {
    if OccursAt(hay, needle, i) then i
    else if i == |hay| then -1
    else IndexFrom(hay, needle, i + 1)
  }

  /**
   * `hay.indexOf(needle)`: the first position at which `needle` occurs in
   * `hay`, or -1 when it occurs nowhere. The empty needle occurs at 0.
   */
  function IndexOf(hay: string, needle: string): (r: int)
    ensures r == -1 || (0 <= r && OccursAt(hay, needle, r))
    ensures r >= 0 ==> forall j :: 0 <= j < r ==> !OccursAt(hay, needle, j)
    ensures r == -1 <==> forall j :: 0 <= j <= |hay| ==> !OccursAt(hay, needle, j)
  {
    IndexFrom(hay, needle, 0)
  }
}
