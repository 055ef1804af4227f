/** Entry identifiers as players see and type them: the primary key written
    in upper-case hexadecimal without a prefix, and read back after stripping
    surrounding whitespace and any leading '#' characters. */
module HexId {
  import opened Basics

  /** Python's `str.isspace` set, which `str.strip()` and `int()` both trim. */
  predicate IsSpace(c: char) {
    || c == ' '
    || ('\t' <= c <= '\r')
    || ('\U{1C}' <= c <= '\U{1F}')
    || c == '\U{85}'
    || c == '\U{A0}'
    || c == '\U{1680}'
    || ('\U{2000}' <= c <= '\U{200A}')
    || c == '\U{2028}'
    || c == '\U{2029}'
    || c == '\U{202F}'
    || c == '\U{205F}'
    || c == '\U{3000}'
  }

  predicate AllSpace(s: string) {
    forall i :: 0 <= i < |s| ==> IsSpace(s[i])
  }

  function TrimLeft(s: string): (r: string)
    ensures |r| <= |s|
    ensures r != [] ==> !IsSpace(r[0])
    decreases |s|
  {
    if s != [] && IsSpace(s[0]) then TrimLeft(s[1..]) else s
  }

  function TrimRight(s: string): (r: string)
    ensures |r| <= |s|
    ensures r != [] ==> !IsSpace(r[|r| - 1])
    decreases |s|
  {
    if s != [] && IsSpace(s[|s| - 1]) then TrimRight(s[..|s| - 1]) else s
  }

  /** Python's `s.strip()`. */
  function Strip(s: string): string {
    TrimRight(TrimLeft(s))
  }

  /** Python's `s.lstrip("#")`: every leading '#' is removed. */
  function LStripHash(s: string): (r: string)
    ensures |r| <= |s|
    ensures r != [] ==> r[0] != '#'
    decreases |s|
  {
    if s != [] && s[0] == '#' then LStripHash(s[1..]) else s
  }

  predicate IsHexDigit(c: char) {
    ('0' <= c <= '9') || ('a' <= c <= 'f') || ('A' <= c <= 'F')
  }

  predicate AllHex(s: string) {
    forall i :: 0 <= i < |s| ==> IsHexDigit(s[i])
  }

  function DigitValue(c: char): (v: nat)
    requires IsHexDigit(c)
    ensures v < 16
  {
    if '0' <= c <= '9' then (c - '0') as nat
    else if 'a' <= c <= 'f' then (c - 'a') as nat + 10
    else (c - 'A') as nat + 10
  }

  /** The upper-case digit for a value below 16. */
  function UpperDigit(v: nat): (c: char)
    requires v < 16
    ensures IsHexDigit(c) && DigitValue(c) == v
    ensures c == '0' <==> v == 0
  {
    if v < 10 then ('0' as int + v) as char else ('A' as int + v - 10) as char
  }

  predicate IsUpperHexDigit(c: char) {
    ('0' <= c <= '9') || ('A' <= c <= 'F')
  }

  /** The strings that formatting produces: non-empty upper-case hex digits
      without a leading zero, except "0" itself. */
  predicate Canonical(s: string) {
    && |s| > 0
    && (forall i :: 0 <= i < |s| ==> IsUpperHexDigit(s[i]))
    && (s[0] == '0' ==> |s| == 1)
  }

  /** The value of a string of hex digits, most significant first. */
  function DigitsValue(s: string): nat
    requires AllHex(s)
  {
    if s == [] then 0 else DigitsValue(s[..|s| - 1]) * 16 + DigitValue(s[|s| - 1])
  }

  /** `int(t, 16)` restricted to plain hex digits: surrounding whitespace is
      allowed, anything else that is not a non-empty digit string fails. */
  function ParseHex(t: string): Option<nat> {
    var u := Strip(t);
    if |u| > 0 && AllHex(u) then Some(DigitsValue(u)) else None
  }

  /** How every command reads a typed entry id: `int(s.strip().lstrip("#"), 16)`. */
  function ParseEntryId(s: string): Option<nat> {
    ParseHex(LStripHash(Strip(s)))
  }

  /** What an id reader accepts: after `strip()`, `lstrip("#")` and the
      whitespace `int()` itself ignores, exactly the non-empty strings of hex
      digits of either case, read as base 16; every other text fails. */
  lemma ParseEntryIdAccepts(s: string)
    ensures var u := Strip(LStripHash(Strip(s)));
      && (ParseEntryId(s).Some? <==> |u| > 0 && AllHex(u))
      && (ParseEntryId(s).Some? ==> ParseEntryId(s).value == DigitsValue(u))
    ensures var u := Strip(LStripHash(Strip(s)));
      (u == [] || exists i :: 0 <= i < |u| && !IsHexDigit(u[i])) ==> ParseEntryId(s).None?
  {
  }

  /** "zzz" holds no hex digit, so it is refused before any lookup. */
  lemma ZzzIsMalformed()
    ensures ParseEntryId("zzz") == None
  {
    var z := "zzz";
    assert !IsSpace(z[0]) && !IsSpace(z[|z| - 1]);
    assert TrimLeft(z) == z;
    assert TrimRight(z) == z;
    assert LStripHash(z) == z;
    assert !IsHexDigit(z[0]);
  }

  /** `f"{n:X}"`: upper-case hexadecimal, no prefix, no leading zeros. */
  function FormatHex(n: nat): (r: string)
    ensures Canonical(r)
    ensures r[0] == '0' <==> n == 0
    decreases n
  {
    if n < 16 then [UpperDigit(n)] else FormatHex(n / 16) + [UpperDigit(n % 16)]
  }

  // ----- Round trips -----

  lemma {:induction false} DigitsOfFormat(n: nat)
    ensures AllHex(FormatHex(n)) && DigitsValue(FormatHex(n)) == n
    decreases n
  {
    var r := FormatHex(n);
    if n >= 16 {
      DigitsOfFormat(n / 16);
      assert r[..|r| - 1] == FormatHex(n / 16);
    }
  }

  lemma {:induction false} TrimLeftSpaces(ws: string, s: string)
    requires AllSpace(ws)
    ensures TrimLeft(ws + s) == TrimLeft(s)
    decreases |ws|
  {
    if ws == [] {
      assert ws + s == s;
    } else {
      assert (ws + s)[0] == ws[0];
      assert (ws + s)[1..] == ws[1..] + s;
      TrimLeftSpaces(ws[1..], s);
    }
  }

  lemma {:induction false} TrimRightSpaces(s: string, ws: string)
    requires AllSpace(ws)
    ensures TrimRight(s + ws) == TrimRight(s)
    decreases |ws|
  {
    if ws == [] {
      assert s + ws == s;
    } else {
      assert (s + ws)[|s + ws| - 1] == ws[|ws| - 1];
      assert (s + ws)[..|s + ws| - 1] == s + ws[..|ws| - 1];
      TrimRightSpaces(s, ws[..|ws| - 1]);
    }
  }

  /** `h` copies of '#'. */
  function Hashes(h: nat): (r: string)
    ensures |r| == h
    ensures forall i :: 0 <= i < h ==> r[i] == '#'
  {
    if h == 0 then [] else "#" + Hashes(h - 1)
  }

  lemma {:induction false} LStripHashes(h: nat, s: string)
    requires s != [] ==> s[0] != '#'
    ensures LStripHash(Hashes(h) + s) == s
    decreases h
  {
    if h == 0 {
      assert Hashes(h) + s == s;
    } else {
      assert (Hashes(h) + s)[0] == '#';
      assert (Hashes(h) + s)[1..] == Hashes(h - 1) + s;
      LStripHashes(h - 1, s);
    }
  }

  /** Whitespace around a string that starts and ends with a non-space
      character is exactly what `strip()` removes. */
  lemma StripAround(ws1: string, core: string, ws2: string)
    requires AllSpace(ws1) && AllSpace(ws2)
    requires core != [] && !IsSpace(core[0]) && !IsSpace(core[|core| - 1])
    ensures Strip(ws1 + core + ws2) == core
  {
    assert ws1 + core + ws2 == ws1 + (core + ws2);
    TrimLeftSpaces(ws1, core + ws2);
    assert (core + ws2)[0] == core[0];
    assert TrimLeft(core + ws2) == core + ws2;
    TrimRightSpaces(core, ws2);
  }

  lemma CanonicalIsStripped(s: string)
    requires Canonical(s)
    ensures !IsSpace(s[0]) && !IsSpace(s[|s| - 1]) && s[0] != '#'
    ensures Strip(s) == s
  {
  }

  /** A formatted id reads back as itself however it is decorated the way the
      commands display or accept it: any number of '#' in front (the embeds
      show "#" + id), and whitespace on either side. */
  lemma ParseFormatted(n: nat, ws1: string, hashes: nat, ws2: string)
    requires AllSpace(ws1) && AllSpace(ws2)
    ensures ParseEntryId(ws1 + Hashes(hashes) + FormatHex(n) + ws2) == Some(n)
  {
    var f := FormatHex(n);
    var core := Hashes(hashes) + f;
    CanonicalIsStripped(f);
    assert core[|core| - 1] == f[|f| - 1];
    assert core[0] == if hashes > 0 then '#' else f[0];
    StripAround(ws1, core, ws2);
    assert ws1 + Hashes(hashes) + f + ws2 == ws1 + core + ws2;
    assert Strip(ws1 + Hashes(hashes) + f + ws2) == core;
    LStripHashes(hashes, f);
    assert LStripHash(core) == f;
    DigitsOfFormat(n);
    assert ParseHex(f) == Some(n);
  }

  /** The two forms the source itself produces parse back to the key. */
  lemma {:induction false} ParseFormatRoundTrip(n: nat)
    ensures ParseEntryId(FormatHex(n)) == Some(n)
    ensures ParseEntryId("#" + FormatHex(n)) == Some(n)
  {
    var f := FormatHex(n);
    assert f == "" + Hashes(0) + f + "" by { assert Hashes(0) == []; }
    ParseFormatted(n, "", 0, "");
    assert "#" + f == "" + Hashes(1) + f + "" by { assert Hashes(1) == "#"; }
    ParseFormatted(n, "", 1, "");
  }

  /** Distinct keys are displayed as distinct ids. */
  lemma FormatInjective(m: nat, n: nat)
    ensures FormatHex(m) == FormatHex(n) ==> m == n
  {
    DigitsOfFormat(m);
    DigitsOfFormat(n);
  }

  lemma {:induction false} LeadingNonZero(s: string)
    requires AllHex(s) && |s| > 0 && s[0] != '0'
    ensures DigitsValue(s) > 0
    decreases |s|
  {
    if |s| > 1 {
      LeadingNonZero(s[..|s| - 1]);
    }
  }

  /** Formatting is onto the canonical strings: a canonical string is the
      format of its own value, so the codec is a bijection between keys and
      canonical strings. */
  lemma {:induction false} FormatOfCanonical(s: string)
    requires Canonical(s)
    ensures AllHex(s) && FormatHex(DigitsValue(s)) == s
    decreases |s|
  {
    assert AllHex(s);
    var n := DigitsValue(s);
    var d := s[|s| - 1];
    if |s| == 1 {
      assert s[..|s| - 1] == [];
      assert DigitsValue(s) == DigitsValue(s[..|s| - 1]) * 16 + DigitValue(d);
      assert n == DigitValue(d);
      assert UpperDigit(DigitValue(d)) == d;
    } else {
      var p := s[..|s| - 1];
      assert Canonical(p);
      FormatOfCanonical(p);
      LeadingNonZero(p);
      assert n / 16 == DigitsValue(p) && n % 16 == DigitValue(d);
      assert s == p + [d];
    }
  }
}
