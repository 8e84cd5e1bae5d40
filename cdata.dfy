/** `cdatafy`: the content of the named XML elements is wrapped in CDATA
    sections before the document is parsed, so that free text in them cannot
    break the parse. */
module Cdata {
  import opened Rewrite

  function Open(e: string): string { "<" + e + ">" }
  function Close(e: string): string { "</" + e + ">" }

  const CdataStart: string := "<![CDATA["
  const CdataEnd: string := "]]>"

  /** The two replacements made for one element: the closing tag first,
      then the opening tag. */
  function CdataOne(xml: string, e: string): string {
    ReplaceAll(ReplaceAll(xml, Close(e), CdataEnd + Close(e)), Open(e), Open(e) + CdataStart)
  }

  /** The element list handled in order. */
  function CdataAll(xml: string, ele: seq<string>): string
    decreases |ele|
  {
    if ele == [] then xml else CdataOne(CdataAll(xml, ele[..|ele| - 1]), ele[|ele| - 1])
  }

  /** The loop of `cdatafy` over its variadic element list. */
  method Cdatafy(xml: string, ele: seq<string>) returns (r: string)
    ensures r == CdataAll(xml, ele)
  {
    r := xml;
    for i := 0 to |ele|
      invariant r == CdataAll(xml, ele[..i])
    {
      assert ele[..i + 1][..i] == ele[..i];
      assert CdataAll(xml, ele[..i + 1]) == CdataOne(CdataAll(xml, ele[..i]), ele[i]);
      r := ReplaceAll(r, Close(ele[i]), CdataEnd + Close(ele[i]));
      r := ReplaceAll(r, Open(ele[i]), Open(ele[i]) + CdataStart);
    }
    assert ele[..|ele|] == ele;
  }

  // ---------------------------------------------------------------------
  // Properties

  /** A document that contains neither tag of any listed element is
      returned unchanged. */
  lemma {:induction false} CdataUntouched(xml: string, ele: seq<string>)
    requires forall i :: 0 <= i < |ele| ==> !Occurs(xml, Open(ele[i])) && !Occurs(xml, Close(ele[i]))
    ensures CdataAll(xml, ele) == xml
    decreases |ele|
  {
    if ele != [] {
      var e := ele[|ele| - 1];
      CdataUntouched(xml, ele[..|ele| - 1]);
      ReplaceAllAbsent(xml, Close(e), CdataEnd + Close(e));
      ReplaceAllAbsent(xml, Open(e), Open(e) + CdataStart);
    }
  }

  /** The content of an element that holds no markup ends up inside one
      CDATA section: `<e>t</e>` becomes `<e><![CDATA[t]]></e>`. */
  lemma CdataWraps(e: string, t: string)
    requires |e| > 0 && e[0] != '/' && '<' !in e && '<' !in t
    ensures CdataOne(Open(e) + t + Close(e), e) == Open(e) + CdataStart + t + CdataEnd + Close(e)
  {
    CloseTagStep(e, t);
    OpenTagStep(e, t);
    var o, c := Open(e), Close(e);
    assert o + (CdataStart + (t + CdataEnd + c)) == o + CdataStart + t + CdataEnd + c;
  }

  /** The closing tag: only its own `<` can start a match after the first character. */
  lemma CloseTagStep(e: string, t: string)
    requires |e| > 0 && e[0] != '/' && '<' !in e && '<' !in t
    ensures ReplaceAll(Open(e) + t + Close(e), Close(e), CdataEnd + Close(e)) ==
      Open(e) + (t + CdataEnd + Close(e))
  {
    var o, c := Open(e), Close(e);
    var u := e + ">" + t;
    NoMarkup(e, ">", t);
    assert c[0] == '<' && c[1] == '/' && u[0] == e[0];
    LastMatchOnly('<', u, c, CdataEnd + c);
    assert o + t + c == ['<'] + u + c;
    assert ['<'] + u + (CdataEnd + c) == o + (t + CdataEnd + c);
  }

  /** A text `<u` followed by a pattern that starts with the same `<`, where
      `u` has no `<` and does not continue the pattern: the only match is
      the final one. */
  lemma LastMatchOnly(lt: char, u: string, c: string, b: string)
    requires |c| >= 2 && c[0] == lt && lt !in u && |u| > 0 && u[0] != c[1]
    ensures ReplaceAll([lt] + u + c, c, b) == [lt] + u + b
  {
    var s := [lt] + u + c;
    assert !StartsWith(s, c) by {
      assert s[1] == u[0];
    }
    LiteralMiss(s, c, b);
    assert s[1..] == u + c;
    LiteralSkip(u, c, c, b);
    LiteralHead(c, [], b);
    assert c + [] == c;
    assert [s[0]] + (u + b) == [lt] + u + b;
  }

  /** A closing tag never contains the opening tag of an element whose
      name has no markup. */
  lemma CloseHasNoOpen(e: string)
    requires |e| > 0 && e[0] != '/' && '<' !in e
    ensures !Occurs(Close(e), Open(e))
  {
    var o, c := Open(e), Close(e);
    assert !StartsWith(c, o) by {
      assert c[1] == '/' && o[1] == e[0];
    }
    NoMarkup(['/'], e, ">");
    assert c[1..] == ['/'] + e + ">";
    AbsentFirstChar(c[1..], o);
  }

  lemma NoMarkup(x: string, y: string, z: string)
    requires '<' !in x && '<' !in y && '<' !in z
    ensures '<' !in x + y + z
  {
    forall ch | ch in x + y + z ensures ch != '<' {
      assert ch in x || ch in y || ch in z;
    }
  }

  /** The opening tag: it matches at the front and nowhere after it. */
  lemma OpenTagStep(e: string, t: string)
    requires |e| > 0 && e[0] != '/' && '<' !in e && '<' !in t
    ensures ReplaceAll(Open(e) + (t + CdataEnd + Close(e)), Open(e), Open(e) + CdataStart) ==
      Open(e) + (CdataStart + (t + CdataEnd + Close(e)))
  {
    var o, c := Open(e), Close(e);
    CloseHasNoOpen(e);
    NoMarkup(t, CdataEnd, []);
    assert t + CdataEnd + [] == t + CdataEnd;
    assert o[0] == '<';
    AbsentAcross(t + CdataEnd, c, o);
    FirstMatchOnly(o, t + CdataEnd + c, o + CdataStart);
  }

  /** A pattern at the front of a text in which it does not occur again. */
  lemma FirstMatchOnly(a: string, w: string, b: string)
    requires |a| > 0 && !Occurs(w, a)
    ensures ReplaceAll(a + w, a, b) == b + w
  {
    LiteralHead(a, w, b);
    ReplaceAllAbsent(w, a, b);
  }

  const XmlProlog: string := "<?xml ver"

  /** One element's replacements keep a leading `<?xml ver`, unless the
      element's name itself starts with `?`. */
  lemma CdataOneKeepsProlog(x: string, e: string)
    requires StartsWith(x, XmlProlog) && (e == [] || e[0] != '?')
    ensures StartsWith(CdataOne(x, e), XmlProlog)
  {
    var w := x[|XmlProlog|..];
    assert x == XmlProlog + w;
    var x1 := ReplaceAll(x, Close(e), CdataEnd + Close(e));
    PrologStep(w, Close(e), CdataEnd + Close(e));
    assert x1 == XmlProlog + ReplaceAll(w, Close(e), CdataEnd + Close(e));
    PrologStep(ReplaceAll(w, Close(e), CdataEnd + Close(e)), Open(e), Open(e) + CdataStart);
  }

  /** A replacement of a tag `<…` whose second character is not `?` keeps
      the prolog in front. */
  lemma PrologStep(w: string, a: string, b: string)
    requires |a| >= 2 && a[0] == '<' && a[1] != '?'
    ensures ReplaceAll(XmlProlog + w, a, b) == XmlProlog + ReplaceAll(w, a, b)
  {
    var u := PrologTail;
    var s := ['<'] + (u + w);
    assert XmlProlog + w == s by {
      assert XmlProlog == ['<'] + u;
    }
    assert s[1..] == u + w;
    assert !StartsWith(s, a) by {
      assert s[1] == u[0] == '?';
    }
    LiteralMiss(s, a, b);
    LiteralSkip(u, w, a, b);
    assert ['<'] + (u + ReplaceAll(w, a, b)) == XmlProlog + ReplaceAll(w, a, b) by {
      assert XmlProlog == ['<'] + u;
    }
  }

  const PrologTail: string := "?xml ver"

  /** Every document that starts with the prolog still does after `cdatafy`. */
  lemma {:induction false} CdataKeepsProlog(x: string, ele: seq<string>)
    requires StartsWith(x, XmlProlog)
    requires forall i :: 0 <= i < |ele| ==> ele[i] == [] || ele[i][0] != '?'
    ensures StartsWith(CdataAll(x, ele), XmlProlog)
    decreases |ele|
  {
    if ele != [] {
      CdataKeepsProlog(x, ele[..|ele| - 1]);
      CdataOneKeepsProlog(CdataAll(x, ele[..|ele| - 1]), ele[|ele| - 1]);
    }
  }
}
