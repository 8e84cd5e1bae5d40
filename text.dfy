/** The gateway's small string helpers: label-name normalisation, the
    printer family, ISO dates and the Latin-1 widening of raw bytes, over the
    character-level operations of Go's `strings` package that they use. */
module Text {

  newtype byte = x: int | 0 <= x < 256

  // ---------------------------------------------------------------------
  // Character classes

  /** Go's `unicode.IsSpace`: the ASCII white space, NEL, NBSP and the
      other characters of the Unicode White_Space property. */
  const Spaces: set<char> := {
    '\t', '\n', '\U{B}', '\U{C}', '\r', ' ', '\U{85}', '\U{A0}', '\U{1680}',
    '\U{2000}', '\U{2001}', '\U{2002}', '\U{2003}', '\U{2004}', '\U{2005}',
    '\U{2006}', '\U{2007}', '\U{2008}', '\U{2009}', '\U{200A}',
    '\U{2028}', '\U{2029}', '\U{202F}', '\U{205F}', '\U{3000}'
  }

  const Digits: set<char> := {'0', '1', '2', '3', '4', '5', '6', '7', '8', '9'}

  /** The class `[ _-]` that label names lose. */
  const NameSeparators: set<char> := {' ', '_', '-'}

  /** The class `[0-9 ]` that printer names lose on the way to their family. */
  const FamilyNoise: set<char> := Digits + {' '}

  /** Upper-case letters of ASCII and of Latin-1 (the multiplication sign
      U+00D7 sits in that block but is not a letter). */
  predicate IsUpper(c: char) {
    ('A' <= c <= 'Z') || ('\U{C0}' <= c <= '\U{DE}' && c != '\U{D7}')
  }

  /** `unicode.ToLower` on the characters above: each capital is 32 code
      points below its small letter. */
  function LowerChar(c: char): (d: char)
    ensures !IsUpper(d)
    ensures IsUpper(c) ==> d as int == c as int + 32
    ensures !IsUpper(c) ==> d == c
  {
    if IsUpper(c) then (c as int + 32) as char else c
  }

  // ---------------------------------------------------------------------
  // strings.ToLower, strings.Trim, strings.TrimSpace, character filters

  function ToLower(s: string): (r: string)
    ensures |r| == |s|
    ensures forall i :: 0 <= i < |s| ==> r[i] == LowerChar(s[i])
  {
    seq(|s|, i requires 0 <= i < |s| => LowerChar(s[i]))
  }

  /** Drop the cut characters from the front: `strings.TrimLeft`. */
  function TrimLeft(s: string, cut: set<char>): (r: string)
    ensures |r| <= |s| && r == s[|s| - |r|..]
    ensures forall i :: 0 <= i < |s| - |r| ==> s[i] in cut
    ensures r == [] || r[0] !in cut
    decreases |s|
  {
    if s != [] && s[0] in cut then TrimLeft(s[1..], cut) else s
  }

  /** Drop the cut characters from the back: `strings.TrimRight`. */
  function TrimRight(s: string, cut: set<char>): (r: string)
    ensures |r| <= |s| && r == s[..|r|]
    ensures forall i :: |r| <= i < |s| ==> s[i] in cut
    ensures r == [] || r[|r| - 1] !in cut
    decreases |s|
  {
    if s != [] && s[|s| - 1] in cut then TrimRight(s[..|s| - 1], cut) else s
  }

  /** `strings.Trim(s, cutset)`. */
  function Trim(s: string, cut: set<char>): string {
    TrimRight(TrimLeft(s, cut), cut)
  }

  /** `strings.TrimSpace`. */
  function TrimSpace(s: string): string {
    Trim(s, Spaces)
  }

  /** Neither end of `s` is a cut character. */
  predicate Trimmed(s: string, cut: set<char>) {
    s == [] || (s[0] !in cut && s[|s| - 1] !in cut)
  }

  /** A regular-expression replacement of a one-character class by "":
      every character of the class is deleted, every other one kept in order. */
  function RemoveChars(s: string, drop: set<char>): (r: string)
    ensures |r| <= |s|
    ensures forall c :: c in r <==> c in s && c !in drop
    decreases |s|
  {
    if s == [] then []
    else if s[0] in drop then RemoveChars(s[1..], drop)
    else [s[0]] + RemoveChars(s[1..], drop)
  }

  // ---------------------------------------------------------------------
  // Facts about trimming and filtering

  /** `Trim` cuts off exactly a run of cut characters at each end: what is
      left is a contiguous piece of `s` whose ends are not cut characters. */
  lemma TrimShape(s: string, cut: set<char>)
    ensures var r := Trim(s, cut);
      Trimmed(r, cut) &&
      exists i, j :: 0 <= i <= j <= |s| && r == s[i..j] &&
        (forall k :: 0 <= k < i ==> s[k] in cut) &&
        (forall k :: j <= k < |s| ==> s[k] in cut)
  {
    var i, j := TrimBounds(s, cut);
    assert Trim(s, cut) == s[i..j];
  }

  /** Where `Trim` cuts: the start and end of what is left. */
  lemma TrimBounds(s: string, cut: set<char>) returns (i: nat, j: nat)
    ensures i <= j <= |s| && TrimRight(TrimLeft(s, cut), cut) == s[i..j]
    ensures Trimmed(s[i..j], cut)
    ensures forall k :: 0 <= k < i ==> s[k] in cut
    ensures forall k :: j <= k < |s| ==> s[k] in cut
  {
    var l := TrimLeft(s, cut);
    i, j := CutBounds(s, l, TrimRight(l, cut), cut);
  }

  /** The bounds of a piece `r` left after cutting a front run off `s`
      (giving `l`) and a back run off `l`. */
  lemma CutBounds(s: string, l: string, r: string, cut: set<char>) returns (i: nat, j: nat)
    requires |l| <= |s| && l == s[|s| - |l|..]
    requires forall k :: 0 <= k < |s| - |l| ==> s[k] in cut
    requires l == [] || l[0] !in cut
    requires |r| <= |l| && r == l[..|r|]
    requires forall k :: |r| <= k < |l| ==> l[k] in cut
    requires r == [] || r[|r| - 1] !in cut
    ensures i <= j <= |s| && r == s[i..j]
    ensures Trimmed(s[i..j], cut)
    ensures forall k :: 0 <= k < i ==> s[k] in cut
    ensures forall k :: j <= k < |s| ==> s[k] in cut
  {
    i := |s| - |l|;
    j := i + |r|;
    SuffixPrefix(s, i, |r|);
    CutTail(s, i, |r|, cut);
    if r != [] {
      assert r[0] == l[0];
    }
  }

  lemma SuffixPrefix(s: string, i: nat, n: nat)
    requires i + n <= |s|
    ensures s[i..][..n] == s[i..i + n]
  {
  }

  /** Cut characters after position `n` of a suffix are cut characters of
      the whole string. */
  lemma CutTail(s: string, i: nat, n: nat, cut: set<char>)
    requires i + n <= |s|
    requires forall k :: n <= k < |s[i..]| ==> s[i..][k] in cut
    ensures forall k :: i + n <= k < |s| ==> s[k] in cut
  {
    forall k | i + n <= k < |s| ensures s[k] in cut {
      assert s[k] == s[i..][k - i];
    }
  }

  /** Every character of a trimmed string comes from the original. */
  lemma TrimKeeps(s: string, cut: set<char>)
    ensures forall c :: c in Trim(s, cut) ==> c in s
  {
    var l := TrimLeft(s, cut);
    var r := TrimRight(l, cut);
    forall c | c in r ensures c in s {
      var k :| 0 <= k < |r| && r[k] == c;
      assert l[k] == c;
      assert s[|s| - |l| + k] == c;
    }
  }

  /** A string whose ends are not cut characters is left alone. */
  lemma TrimFixed(s: string, cut: set<char>)
    requires Trimmed(s, cut)
    ensures Trim(s, cut) == s
  {
  }

  /** Trimming twice is trimming once. */
  lemma TrimIdempotent(s: string, cut: set<char>)
    ensures Trim(Trim(s, cut), cut) == Trim(s, cut)
  {
    TrimShape(s, cut);
    TrimFixed(Trim(s, cut), cut);
  }

  /** Filtering leaves a string without the dropped characters alone. */
  lemma {:induction false} RemoveFixed(s: string, drop: set<char>)
    requires forall c :: c in s ==> c !in drop
    ensures RemoveChars(s, drop) == s
    decreases |s|
  {
    if s != [] {
      assert s[0] in s;
      forall c | c in s[1..] ensures c !in drop {
        assert c in s;
      }
      RemoveFixed(s[1..], drop);
    }
  }

  /** Filtering twice is filtering once. */
  lemma RemoveIdempotent(s: string, drop: set<char>)
    ensures RemoveChars(RemoveChars(s, drop), drop) == RemoveChars(s, drop)
  {
    RemoveFixed(RemoveChars(s, drop), drop);
  }

  /** Lower-casing a string with no capitals changes nothing. */
  lemma LowerFixed(s: string)
    requires forall i :: 0 <= i < |s| ==> !IsUpper(s[i])
    ensures ToLower(s) == s
  {
  }

  // ---------------------------------------------------------------------
  // normalizeLabelName and PrinterType

  /** `normalizeLabelName`: lower-case, delete `[ _-]`, trim white space. */
  function NormalizeLabelName(name: string): string {
    TrimSpace(RemoveChars(ToLower(name), NameSeparators))
  }

  /** A normalised label name has no capital, no space, no `_` and no `-`,
      and neither end is white space. */
  lemma NormalizedNameClean(name: string)
    ensures var r := NormalizeLabelName(name);
      Trimmed(r, Spaces) &&
      (forall c :: c in r ==> c !in NameSeparators && !IsUpper(c))
  {
    var low := ToLower(name);
    var cut := RemoveChars(low, NameSeparators);
    TrimShape(cut, Spaces);
    TrimKeeps(cut, Spaces);
    forall c | c in cut ensures !IsUpper(c) {
      assert c in low;
    }
  }

  /** Normalising a label name twice is normalising it once. */
  lemma NormalizeLabelNameIdempotent(name: string)
    ensures NormalizeLabelName(NormalizeLabelName(name)) == NormalizeLabelName(name)
  {
    var r := NormalizeLabelName(name);
    NormalizedNameClean(name);
    LowerFixed(r);
    RemoveFixed(r, NameSeparators);
    TrimFixed(r, Spaces);
  }

  /** `PrinterType`: the printer's family is its name without digits and
      spaces (`DRU12` → `DRU`). */
  function PrinterType(name: string): string {
    RemoveChars(name, FamilyNoise)
  }

  /** A family has no digit and no space, and it keeps every other
      character of the name. */
  lemma PrinterTypeClean(name: string)
    ensures forall c :: c in PrinterType(name) <==> c in name && c !in Digits && c != ' '
  {
  }

  /** Deriving the family of a family changes nothing. */
  lemma PrinterTypeIdempotent(name: string)
    ensures PrinterType(PrinterType(name)) == PrinterType(name)
  {
    RemoveIdempotent(name, FamilyNoise);
  }

  /** A name without digits and spaces is its own family. */
  lemma PrinterTypeOfPlainName(name: string)
    requires forall c :: c in name ==> c !in Digits && c != ' '
    ensures PrinterType(name) == name
  {
    RemoveFixed(name, FamilyNoise);
  }

  // ---------------------------------------------------------------------
  // toISODate

  const ZeroDate: string := "00000000"

  /** `toISODate`: `YYYYMMDD` becomes `YYYY-MM-DD`; the all-zero date
      becomes the empty string; text of any other length is returned as it is. */
  function ToISODate(s: string): (r: string)
    ensures s == ZeroDate ==> r == []
    ensures |s| != 8 ==> r == s
  {
    if s == ZeroDate then []
    else if |s| == 8 then s[0..4] + "-" + s[4..6] + "-" + s[6..8]
    else s
  }

  /** The inverse direction: drop the two dashes of `YYYY-MM-DD`. */
  function CompactDate(d: string): string {
    if |d| == 10 && d[4] == '-' && d[7] == '-' then d[..4] + d[5..7] + d[8..] else d
  }

  /** Any other eight characters get dashes after the year and after the
      month, and dropping them again gives the input back. */
  lemma ToISODateRoundTrip(s: string)
    requires |s| == 8 && s != ZeroDate
    ensures var r := ToISODate(s);
      |r| == 10 && r[4] == '-' && r[7] == '-' && CompactDate(r) == s
  {
    var r := ToISODate(s);
    assert r[..4] + r[5..7] + r[8..] == s[0..4] + s[4..6] + s[6..8];
    assert s == s[0..4] + s[4..6] + s[6..8];
  }

  /** Distinct eight-character dates other than the zero date stay distinct. */
  lemma ToISODateInjective(s: string, t: string)
    requires |s| == 8 && s != ZeroDate && |t| == 8 && t != ZeroDate
    requires ToISODate(s) == ToISODate(t)
    ensures s == t
  {
    ToISODateRoundTrip(s);
    ToISODateRoundTrip(t);
  }

  // ---------------------------------------------------------------------
  // toUtf8

  /** The character with the same code as a byte: ISO 8859-1 decoding. */
  function Widen(b: byte): (c: char)
    ensures c as int == b as int
  {
    (b as int) as char
  }

  /** Latin-1 encoding of text whose characters are all below U+0100. */
  function Latin1Encode(s: string): (bs: seq<byte>)
    requires forall i :: 0 <= i < |s| ==> s[i] as int < 256
    ensures |bs| == |s|
    ensures forall i :: 0 <= i < |s| ==> bs[i] as int == s[i] as int
  {
    seq(|s|, i requires 0 <= i < |s| => s[i] as int as byte)
  }

  /** `toUtf8`: fill a rune buffer of the input's length with one widened
      byte per position. */
  method ToUtf8(iso8859: seq<byte>) returns (s: string)
    ensures |s| == |iso8859|
    ensures forall i :: 0 <= i < |s| ==> s[i] as int == iso8859[i] as int
    ensures (forall i :: 0 <= i < |s| ==> s[i] as int < 256) && Latin1Encode(s) == iso8859
  {
    var buf := new char[|iso8859|];
    for i := 0 to |iso8859|
      invariant forall j :: 0 <= j < i ==> buf[j] as int == iso8859[j] as int
    {
      buf[i] := Widen(iso8859[i]);
    }
    s := buf[..];
  }
}
