/** Encoding of a field value before it is written into a ZPL template:
    backslashes are escaped as `\1F` first, then each special character of
    the printer's code page table becomes its `\hh` escape. */
module Encoding {
  import opened Rewrite

  /** The escape written for a literal backslash. */
  const BackslashEscape: string := "\\1F"

  /** The `sonderzeichen` table: every key is a single character. */
  const Table: map<char, string> := map[
    '\U{D6}' := "\\99",   // Ö
    '\U{F6}' := "\\94",   // ö
    '\U{DC}' := "\\9A",   // Ü
    '\U{FC}' := "\\81",   // ü
    '\U{C4}' := "\\8E",   // Ä
    '\U{E4}' := "\\84",   // ä
    '\U{DF}' := "\\E1",   // ß
    '\U{D8}' := "\\9D",   // Ø
    '\U{B5}' := "\\E6",   // µ
    '~' := "\\7E"
  ]

  /** The characters escapes are written with. */
  const EscapeAlphabet: set<char> := {
    '\\', '0', '1', '2', '3', '4', '5', '6', '7', '8', '9', 'A', 'B', 'C', 'D', 'E', 'F'
  }

  /** The replacement of one character of the value, when the keys in
      `done` have already been applied. */
  function Piece(c: char, done: set<char>): string {
    if c == '\\' then BackslashEscape
    else if c in done && c in Table then Table[c]
    else [c]
  }

  /** The value with every character replaced by its piece. */
  function EncodeWith(v: string, done: set<char>): string
    decreases |v|
  {
    if v == [] then [] else Piece(v[0], done) + EncodeWith(v[1..], done)
  }

  /** What a field value turns into once every table entry has been applied. */
  function Encoded(v: string): string {
    EncodeWith(v, Table.Keys)
  }

  /** Replace every occurrence of the character `c` by `b`. */
  function Subst(s: string, c: char, b: string): string
    decreases |s|
  {
    if s == [] then [] else (if s[0] == c then b else [s[0]]) + Subst(s[1..], c, b)
  }

  // ---------------------------------------------------------------------
  // The table

  /** Escapes are written in the escape alphabet, and no key belongs to it. */
  lemma TableShape()
    ensures forall k :: k in Table ==> k !in EscapeAlphabet
    ensures forall k :: k in Table ==> |Table[k]| == 3 && Table[k][0] == '\\'
    ensures forall k, c :: k in Table && c in Table[k] ==> c in EscapeAlphabet
    ensures forall c :: c in BackslashEscape ==> c in EscapeAlphabet
  {
  }

  // ---------------------------------------------------------------------
  // Replacing one character

  /** `strings.Replace` of a one-character string is a per-character substitution. */
  lemma {:induction false} ReplaceOneChar(s: string, c: char, b: string)
    ensures ReplaceAll(s, [c], b) == Subst(s, c, b)
    decreases |s|
  {
    if s != [] {
      ReplaceOneChar(s[1..], c, b);
      if s[0] == c {
        assert StartsWith(s, [c]);
      } else {
        assert !StartsWith(s, [c]);
      }
    }
  }

  lemma {:induction false} SubstConcat(x: string, y: string, c: char, b: string)
    ensures Subst(x + y, c, b) == Subst(x, c, b) + Subst(y, c, b)
    decreases |x|
  {
    if x == [] {
      assert x + y == y;
    } else {
      assert (x + y)[0] == x[0] && (x + y)[1..] == x[1..] + y;
      SubstConcat(x[1..], y, c, b);
    }
  }

  lemma {:induction false} SubstAbsent(s: string, c: char, b: string)
    requires c !in s
    ensures Subst(s, c, b) == s
    decreases |s|
  {
    if s != [] {
      assert s[0] in s;
      assert c !in s[1..] by {
        forall d | d in s[1..] ensures d in s { }
      }
      SubstAbsent(s[1..], c, b);
    }
  }

  // ---------------------------------------------------------------------
  // The steps of the encoding loop

  /** Escaping the backslashes gives the encoding with no table entry applied. */
  lemma {:induction false} EscapeStep(v: string)
    ensures Subst(v, '\\', BackslashEscape) == EncodeWith(v, {})
    decreases |v|
  {
    if v != [] {
      EscapeStep(v[1..]);
    }
  }

  /** Applying one more table entry to a partly encoded value gives the
      encoding with that entry added: no escape contains a key. */
  lemma {:induction false} KeyStep(v: string, done: set<char>, k: char)
    requires k in Table && k !in done
    ensures Subst(EncodeWith(v, done), k, Table[k]) == EncodeWith(v, done + {k})
    decreases |v|
  {
    if v != [] {
      TableShape();
      var p := Piece(v[0], done);
      SubstConcat(p, EncodeWith(v[1..], done), k, Table[k]);
      KeyStep(v[1..], done, k);
      if v[0] == k {
        assert p == [k];
      } else {
        assert k !in p;
        SubstAbsent(p, k, Table[k]);
      }
    }
  }

  /** The loop of the renderer over the table: a backslash pass, then one
      pass per key, in whatever order the map is walked.  The result is the
      same for every order. */
  method EncodeField(value: string) returns (encoded: string)
    ensures encoded == Encoded(value)
  {
    encoded := ReplaceAll(value, "\\", BackslashEscape);
    ReplaceOneChar(value, '\\', BackslashEscape);
    EscapeStep(value);
    var pending := Table.Keys;
    assert Table.Keys - pending == {};
    while pending != {}
      invariant pending <= Table.Keys
      invariant encoded == EncodeWith(value, Table.Keys - pending)
      decreases |pending|
    {
      var key :| key in pending;
      ReplaceOneChar(encoded, key, Table[key]);
      KeyStep(value, Table.Keys - pending, key);
      assert (Table.Keys - pending) + {key} == Table.Keys - (pending - {key});
      encoded := ReplaceAll(encoded, [key], Table[key]);
      pending := pending - {key};
    }
    assert Table.Keys - pending == Table.Keys;
  }

  // ---------------------------------------------------------------------
  // Properties of the encoding

  /** An encoded value contains none of the table's keys. */
  lemma {:induction false} EncodedHasNoKey(v: string)
    ensures forall c :: c in Encoded(v) ==> c !in Table
    decreases |v|
  {
    if v != [] {
      TableShape();
      EncodedHasNoKey(v[1..]);
      var p := Piece(v[0], Table.Keys);
      assert forall c :: c in p ==> c !in Table;
    }
  }

  /** The encoding keeps every character that is neither a backslash nor a key. */
  lemma {:induction false} EncodedPlain(v: string)
    requires forall c :: c in v ==> c != '\\' && c !in Table
    ensures Encoded(v) == v
    decreases |v|
  {
    if v != [] {
      assert v[0] in v;
      forall c | c in v[1..] ensures c != '\\' && c !in Table {
        assert c in v;
      }
      EncodedPlain(v[1..]);
    }
  }

  /** Decoding table: each escape back to the character it stands for. */
  const Unescape: map<string, char> := map[
    "\\1F" := '\\',
    "\\99" := '\U{D6}', "\\94" := '\U{F6}', "\\9A" := '\U{DC}', "\\81" := '\U{FC}',
    "\\8E" := '\U{C4}', "\\84" := '\U{E4}', "\\E1" := '\U{DF}', "\\9D" := '\U{D8}',
    "\\E6" := '\U{B5}', "\\7E" := '~'
  ]

  /** Read an encoded value back: a backslash and the two characters after
      it that form a known escape give one character; any other character
      stands for itself. */
  function Decode(s: string): string
    decreases |s|
  {
    if s == [] then []
    else if |s| >= 3 && s[..3] in Unescape then [Unescape[s[..3]]] + Decode(s[3..])
    else [s[0]] + Decode(s[1..])
  }

  lemma UnescapeInverts()
    ensures BackslashEscape in Unescape && Unescape[BackslashEscape] == '\\'
    ensures forall k :: k in Table ==> Table[k] in Unescape && Unescape[Table[k]] == k
  {
  }

  /** Every escape starts with a backslash; nothing else is decoded. */
  lemma UnescapeShape()
    ensures forall e :: e in Unescape ==> |e| == 3 && e[0] == '\\'
  {
  }

  /** Decoding the encoding of a value gives the value back. */
  lemma {:induction false} DecodeEncoded(v: string)
    ensures Decode(Encoded(v)) == v
    decreases |v|
  {
    if v != [] {
      var c := v[0];
      var p := Piece(c, Table.Keys);
      var rest := Encoded(v[1..]);
      assert Encoded(v) == p + rest;
      DecodeEncoded(v[1..]);
      UnescapeInverts();
      if c == '\\' || c in Table {
        DecodeEscaped(p, rest);
      } else {
        assert p == [c];
        DecodePlain(c, rest);
      }
    }
  }

  /** A known escape at the front decodes to its character. */
  lemma DecodeEscaped(p: string, rest: string)
    requires p in Unescape
    ensures Decode(p + rest) == [Unescape[p]] + Decode(rest)
  {
    UnescapeShape();
    assert (p + rest)[..3] == p && (p + rest)[3..] == rest;
  }

  /** A character other than a backslash at the front stands for itself. */
  lemma DecodePlain(c: char, rest: string)
    requires c != '\\'
    ensures Decode([c] + rest) == [c] + Decode(rest)
  {
    UnescapeShape();
    var s := [c] + rest;
    assert s[0] == c && s[1..] == rest;
    assert |s| >= 3 ==> s[..3][0] == c;
  }

  /** Distinct values are encoded differently. */
  lemma EncodedInjective(v: string, w: string)
    requires Encoded(v) == Encoded(w)
    ensures v == w
  {
    DecodeEncoded(v);
    DecodeEncoded(w);
  }
}
