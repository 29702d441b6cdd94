/**
  UUID text as the `google/uuid` package parses and prints it. `Parse` accepts the four
  layouts that package accepts (hyphenated, hyphenated inside one leading and one trailing
  character, `urn:uuid:` prefixed, and 32 bare digits) and yields the 32 hexadecimal digits in
  lower case; `Format` is `UUID.String()`, the hyphenated lower-case layout.
*/
module Uuid {
  import opened Wrappers
  import Text

  predicate IsHex(c: char) {
    '0' <= c <= '9' || 'a' <= c <= 'f' || 'A' <= c <= 'F'
  }

  predicate IsLowerHex(c: char) {
    '0' <= c <= '9' || 'a' <= c <= 'f'
  }

  predicate AllHex(s: string) {
    forall i :: 0 <= i < |s| ==> IsHex(s[i])
  }

  /** Lower-cases every character (only ASCII letters change). */
  function Lower(s: string): (r: string)
    ensures |r| == |s|
    ensures forall i :: 0 <= i < |s| ==> r[i] == Text.LowerAscii(s[i])
  {
    if s == [] then [] else [Text.LowerAscii(s[0])] + Lower(s[1..])
  }

  /** 32 lower-case hexadecimal digits: the 16 bytes of a UUID. */
  predicate IsDigits32(h: string) {
    |h| == 32 && forall i :: 0 <= i < 32 ==> IsLowerHex(h[i])
  }

  predicate HyphenAt(i: int) {
    i == 8 || i == 13 || i == 18 || i == 23
  }

  /** The hyphenated layout `xxxxxxxx-xxxx-xxxx-xxxx-xxxxxxxxxxxx`, digits of either case. */
  predicate IsHyphenated(s: string) {
    |s| == 36 && forall i :: 0 <= i < 36 ==> if HyphenAt(i) then s[i] == '-' else IsHex(s[i])
  }

  /** What `UUID.String()` prints: the hyphenated layout in lower case. */
  predicate IsCanonical(s: string) {
    |s| == 36 && forall i :: 0 <= i < 36 ==> if HyphenAt(i) then s[i] == '-' else IsLowerHex(s[i])
  }

  function DropHyphens(s: string): (h: string)
    requires |s| == 36
    ensures |h| == 32
  {
    s[..8] + s[9..13] + s[14..18] + s[19..23] + s[24..]
  }

  /** ASCII case-insensitive equality (`strings.EqualFold` on the ASCII prefix `urn:uuid:`). */
  predicate EqualFoldAscii(a: string, b: string) {
    Lower(a) == Lower(b)
  }

  /**
    `uuid.Parse`. Any byte at or above 0x80 sits at a position that must hold a hex digit or a
    hyphen (or, in the 38-byte layout, is never part of a one-byte trailing character), so only
    ASCII text parses and byte positions coincide with character positions.
  */
  function Parse(s: string): (r: Option<string>)
    ensures r.Some? ==> IsDigits32(r.value)
    ensures r.Some? ==> Text.IsAscii(s)
  {
    if !Text.IsAscii(s) then None
    else if |s| == 32 then (if AllHex(s) then Some(Lower(s)) else None)
    else if |s| == 36 then ParseHyphenated(s)
    else if |s| == 38 then ParseHyphenated(s[1..37])
    else if |s| == 45 then (if EqualFoldAscii(s[..9], "urn:uuid:") then ParseHyphenated(s[9..]) else None)
    else None
  }

  function ParseHyphenated(s: string): (r: Option<string>)
    requires |s| == 36
    ensures r.Some? <==> IsHyphenated(s)
    ensures r.Some? ==> IsDigits32(r.value) && r.value == Lower(DropHyphens(s))
  {
    if IsHyphenated(s) then
      var h := DropHyphens(s);
      assert AllHex(h) by {
        forall i | 0 <= i < 32 ensures IsHex(h[i]) {
          if i < 8 { assert h[i] == s[i]; }
          else if i < 12 { assert h[i] == s[i + 1]; }
          else if i < 16 { assert h[i] == s[i + 2]; }
          else if i < 20 { assert h[i] == s[i + 3]; }
          else { assert h[i] == s[i + 4]; }
        }
      }
      Some(Lower(h))
    else None
  }

  /** `UUID.String()`. */
  function Format(h: string): (s: string)
    requires IsDigits32(h)
    ensures IsCanonical(s)
    ensures DropHyphens(s) == h
  {
    var s := h[..8] + "-" + h[8..12] + "-" + h[12..16] + "-" + h[16..20] + "-" + h[20..];
    assert forall i :: 0 <= i < 36 ==> if HyphenAt(i) then s[i] == '-' else IsLowerHex(s[i]) by {
      forall i | 0 <= i < 36 ensures if HyphenAt(i) then s[i] == '-' else IsLowerHex(s[i]) {
        if i < 8 { assert s[i] == h[i]; }
        else if 8 < i < 13 { assert s[i] == h[i - 1]; }
        else if 13 < i < 18 { assert s[i] == h[i - 2]; }
        else if 18 < i < 23 { assert s[i] == h[i - 3]; }
        else if 23 < i { assert s[i] == h[i - 4]; }
      }
    }
    assert s[..8] == h[..8] && s[9..13] == h[8..12] && s[14..18] == h[12..16];
    assert s[19..23] == h[16..20] && s[24..] == h[20..];
    assert h == h[..8] + h[8..12] + h[12..16] + h[16..20] + h[20..];
    s
  }

  /** `uuid.Nil.String()`: what the source returns as the ID on every error path. */
  const NilText: string := "00000000-0000-0000-0000-000000000000"

  lemma LowerOfLowerHex(h: string)
    requires forall i :: 0 <= i < |h| ==> IsLowerHex(h[i])
    ensures Lower(h) == h
  {
  }

  /** Canonical text parses back to the digits it was printed from, and prints back to itself. */
  lemma CanonicalRoundTrip(s: string)
    requires IsCanonical(s)
    ensures Parse(s).Some?
    ensures Format(Parse(s).value) == s
  {
    assert Text.IsAscii(s);
    assert IsHyphenated(s);
    var h := DropHyphens(s);
    assert forall i :: 0 <= i < 32 ==> IsLowerHex(h[i]) by {
      forall i | 0 <= i < 32 ensures IsLowerHex(h[i]) {
        if i < 8 { assert h[i] == s[i]; }
        else if i < 12 { assert h[i] == s[i + 1]; }
        else if i < 16 { assert h[i] == s[i + 2]; }
        else if i < 20 { assert h[i] == s[i + 3]; }
        else { assert h[i] == s[i + 4]; }
      }
    }
    LowerOfLowerHex(h);
    var t := Format(h);
    assert forall i :: 0 <= i < 36 ==> t[i] == s[i] by {
      forall i | 0 <= i < 36 ensures t[i] == s[i] {
        if i < 8 { assert t[i] == h[i] == s[i]; }
        else if 8 < i < 13 { assert t[i] == h[i - 1] == s[i]; }
        else if 13 < i < 18 { assert t[i] == h[i - 2] == s[i]; }
        else if 18 < i < 23 { assert t[i] == h[i - 3] == s[i]; }
        else if 23 < i { assert t[i] == h[i - 4] == s[i]; }
      }
    }
  }

  /** Whatever layout was parsed, printing and re-parsing gives the same 16 bytes. */
  lemma ParseIsIdempotent(s: string)
    requires Parse(s).Some?
    ensures Parse(Format(Parse(s).value)) == Parse(s)
  {
    var h := Parse(s).value;
    CanonicalRoundTrip(Format(h));
    assert DropHyphens(Format(h)) == h;
    assert Parse(Format(h)).value == Lower(h);
    LowerOfLowerHex(h);
  }
}
