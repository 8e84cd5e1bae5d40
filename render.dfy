/** Rendering a ZPL label from its template: the request's fields go into
    their `$name$` placeholders, then the date, time and printer are stamped
    in, the media commands are adjusted to the device and every print
    density command is set to `^PR12,12`. */
module Render {
  import opened Rewrite
  import opened Encoding

  const DatePlaceholder: string := "$DATE$"
  const TimePlaceholder: string := "$TIME$"
  const PrinterPlaceholder: string := "$PRINTER$"

  /** The placeholder a field of the request fills. */
  function Placeholder(name: string): (p: string)
    ensures |p| == |name| + 2 && p[0] == '$' && p[|p| - 1] == '$'
  {
    "$" + name + "$"
  }

  /** The template after the fields have been substituted in the order
      `order` (the last name is substituted last). */
  function FillFields(t: string, fields: map<string, string>, order: seq<string>): string
    requires forall i :: 0 <= i < |order| ==> order[i] in fields
    decreases |order|
  {
    if order == [] then t
    else
      var name := order[|order| - 1];
      ReplaceAll(FillFields(t, fields, order[..|order| - 1]), Placeholder(name), Encoded(fields[name]))
  }

  /** The date, the time and the printer name written into their placeholders. */
  function Stamp(t: string, printer: string, date: string, time: string): string {
    ReplaceAll(ReplaceAll(ReplaceAll(t, DatePlaceholder, date), TimePlaceholder, time),
      PrinterPlaceholder, printer)
  }

  /** Media commands: `^MTT` (thermal transfer) becomes `^MTD` (direct
      thermal); a peel-off device turns tear-off `^MMT` into `^MMK`, any
      other device turns peel-off `^MMP` and `^MMK` into tear-off `^MMT`. */
  function AdjustMedia(t: string, peel: bool): string {
    var d := ReplaceAll(t, "^MTT", "^MTD");
    if peel then ReplaceAll(d, "^MMT", "^MMK")
    else ReplaceAll(ReplaceAll(d, "^MMP", "^MMT"), "^MMK", "^MMT")
  }

  /** Everything the renderer does after the fields are in. */
  function Finish(t: string, printer: string, date: string, time: string, peel: bool): string {
    NormalizeDensity(AdjustMedia(Stamp(t, printer, date, time), peel))
  }

  /** `order` takes every field name of `fields` exactly once. */
  predicate FieldPermutation(order: seq<string>, fields: map<string, string>) {
    |order| == |fields| && (forall i :: 0 <= i < |order| ==> order[i] in fields)
    && forall i, j :: 0 <= i < j < |order| ==> order[i] != order[j]
  }

  /** The renderer: walk the request's fields in whatever order the map is
      iterated, encode each value and substitute it, then apply the fixed
      chain of rewrites.  The order taken is returned for the specification. */
  method RenderLabel(template: string, fields: map<string, string>, printer: string,
                     date: string, time: string, peel: bool)
    returns (zpl: string, ghost order: seq<string>)
    ensures FieldPermutation(order, fields)
    ensures zpl == Finish(FillFields(template, fields, order), printer, date, time, peel)
  {
    var tmpl := template;
    var pending := fields.Keys;
    order := [];
    while pending != {}
      invariant pending <= fields.Keys
      invariant forall i :: 0 <= i < |order| ==> order[i] in fields && order[i] !in pending
      invariant forall i, j :: 0 <= i < j < |order| ==> order[i] != order[j]
      invariant forall n :: n in fields ==> n in pending || n in order
      invariant |order| + |pending| == |fields|
      invariant tmpl == FillFields(template, fields, order)
      decreases |pending|
    {
      var name :| name in pending;
      var value := EncodeField(fields[name]);
      tmpl := ReplaceAll(tmpl, Placeholder(name), value);
      assert (order + [name])[..|order|] == order;
      order := order + [name];
      pending := pending - {name};
    }
    tmpl := ReplaceAll(tmpl, DatePlaceholder, date);
    tmpl := ReplaceAll(tmpl, TimePlaceholder, time);
    tmpl := ReplaceAll(tmpl, PrinterPlaceholder, printer);
    tmpl := ReplaceAll(tmpl, "^MTT", "^MTD");
    if peel {
      tmpl := ReplaceAll(tmpl, "^MMT", "^MMK");
    } else {
      tmpl := ReplaceAll(tmpl, "^MMP", "^MMT");
      tmpl := ReplaceAll(tmpl, "^MMK", "^MMT");
    }
    zpl := NormalizeDensity(tmpl);
    ghost var names := set i | 0 <= i < |order| :: order[i];
    assert names == fields.Keys;
    DistinctLength(order, names);
  }

  lemma {:induction false} DistinctLength(order: seq<string>, names: set<string>)
    requires forall i, j :: 0 <= i < j < |order| ==> order[i] != order[j]
    requires names == set i | 0 <= i < |order| :: order[i]
    ensures |names| == |order|
    decreases |order|
  {
    if order != [] {
      var init := order[..|order| - 1];
      var last := order[|order| - 1];
      var rest := set i | 0 <= i < |init| :: init[i];
      assert last !in rest;
      assert names == rest + {last};
      DistinctLength(init, rest);
    }
  }

  // ---------------------------------------------------------------------
  // Which replacements cannot recreate which commands

  /** A value that can be stamped into a placeholder without forming a
      placeholder again: it has no `$` and is not a piece of one of them. */
  predicate Inert(v: string) {
    '$' !in v && !Occurs(DatePlaceholder, v) && !Occurs(TimePlaceholder, v)
    && !Occurs(PrinterPlaceholder, v)
  }

  lemma InertShielded(v: string)
    requires Inert(v)
    ensures Shielded(DatePlaceholder, v) && Shielded(TimePlaceholder, v)
    ensures Shielded(PrinterPlaceholder, v)
  {
    DelimitedShielded(DatePlaceholder, v);
    DelimitedShielded(TimePlaceholder, v);
    DelimitedShielded(PrinterPlaceholder, v);
  }

  /** Caret commands contain no `$` and no placeholder begins with a caret. */
  lemma CaretInert(b: string)
    requires |b| > 0 && b[0] == '^' && '$' !in b
    ensures Inert(b)
  {
    AbsentFirstChar(DatePlaceholder, b);
    AbsentFirstChar(TimePlaceholder, b);
    AbsentFirstChar(PrinterPlaceholder, b);
  }

  /** The caret commands written by the rewrites are inert. */
  lemma CommandsInert()
    ensures Inert("^MTD") && Inert("^MMK") && Inert("^MMT") && Inert(CanonicalDensity)
  {
    CommandInert("^MTD");
    CommandInert("^MMK");
    CommandInert("^MMT");
    CommandInert(CanonicalDensity);
  }

  /** The commands the rewrites write are caret commands without a `$`. */
  lemma CommandInert(b: string)
    requires b in {"^MTD", "^MMK", "^MMT", CanonicalDensity}
    ensures Inert(b)
  {
    assert |b| > 0 && b[0] == '^';
    assert forall i :: 0 <= i < |b| ==> b[i] != '$';
    CaretInert(b);
  }

  /** A media command is shielded from the three others it differs from. */
  lemma MediaShields()
    ensures Shielded("^MTT", "^MTD") && Shielded("^MTT", "^MMK") && Shielded("^MTT", "^MMT")
    ensures Shielded("^MMP", "^MMT") && Shielded("^MMT", "^MMK") && Shielded("^MMK", "^MMT")
  {
    MediaShield("^MTT", "^MTD");
    MediaShield("^MTT", "^MMK");
    MediaShield("^MTT", "^MMT");
    MediaShield("^MMP", "^MMT");
    MediaShield("^MMT", "^MMK");
    MediaShield("^MMK", "^MMT");
  }

  /** Two media commands `^Mxy` that differ are shielded from each other. */
  lemma MediaShield(x: string, b: string)
    requires |x| == 4 && |b| == 4 && x[0] == '^' && b[0] == '^' && x[1] == 'M' && b[1] == 'M'
    requires x[2] != '^' && x[3] != '^' && b[2] != '^' && b[3] != '^'
    requires x != b
    ensures Shielded(x, b)
  {
    assert x[1..] == [x[1], x[2], x[3]] && b[1..] == [b[1], b[2], b[3]];
    assert x[2] != b[2] || x[3] != b[3];
    CaretShielded(x, b);
  }

  /** Every media command is shielded from the density command `^PR12,12`. */
  lemma DensityShields()
    ensures Shielded("^MTT", CanonicalDensity) && Shielded("^MMT", CanonicalDensity)
    ensures Shielded("^MMP", CanonicalDensity) && Shielded("^MMK", CanonicalDensity)
  {
    DensityShield("^MTT");
    DensityShield("^MMT");
    DensityShield("^MMP");
    DensityShield("^MMK");
  }

  lemma DensityShield(x: string)
    requires |x| == 4 && x[0] == '^' && x[1] == 'M' && x[2] != '^' && x[3] != '^'
    ensures Shielded(x, CanonicalDensity)
  {
    assert x[1..] == [x[1], x[2], x[3]];
    assert CanonicalDensity[1] == 'P' && '^' !in CanonicalDensity[1..];
    CaretShielded(x, CanonicalDensity);
  }

  /** After stamping inert values no placeholder of the date, the time or the
      printer is left. */
  lemma StampClean(t: string, printer: string, date: string, time: string)
    requires Inert(printer) && Inert(date) && Inert(time)
    ensures var r := Stamp(t, printer, date, time);
      !Occurs(r, DatePlaceholder) && !Occurs(r, TimePlaceholder) && !Occurs(r, PrinterPlaceholder)
  {
    InertShielded(date);
    InertShielded(time);
    InertShielded(printer);
    var t1 := ReplaceAll(t, DatePlaceholder, date);
    ReplaceAllRemoves(t, DatePlaceholder, date);
    var t2 := ReplaceAll(t1, TimePlaceholder, time);
    ReplaceAllRemoves(t1, TimePlaceholder, time);
    ReplaceAllPreserves(t1, TimePlaceholder, time, DatePlaceholder);
    ReplaceAllRemoves(t2, PrinterPlaceholder, printer);
    ReplaceAllPreserves(t2, PrinterPlaceholder, printer, DatePlaceholder);
    ReplaceAllPreserves(t2, PrinterPlaceholder, printer, TimePlaceholder);
  }

  /** Inserting caret commands keeps a text free of placeholders. */
  lemma CaretKeepsStamp(s: string, a: string, b: string)
    requires |a| > 0 && Inert(b)
    requires !Occurs(s, DatePlaceholder) && !Occurs(s, TimePlaceholder)
    requires !Occurs(s, PrinterPlaceholder)
    ensures var r := ReplaceAll(s, a, b);
      !Occurs(r, DatePlaceholder) && !Occurs(r, TimePlaceholder) && !Occurs(r, PrinterPlaceholder)
  {
    InertShielded(b);
    ReplaceAllPreserves(s, a, b, DatePlaceholder);
    ReplaceAllPreserves(s, a, b, TimePlaceholder);
    ReplaceAllPreserves(s, a, b, PrinterPlaceholder);
  }

  /** The media rewrite leaves no `^MTT`; on a peel-off device no `^MMT`, on
      any other device neither `^MMP` nor `^MMK`; and it keeps a text free of
      placeholders. */
  lemma AdjustMediaClean(t: string, peel: bool)
    ensures var r := AdjustMedia(t, peel);
      !Occurs(r, "^MTT") &&
      (peel ==> !Occurs(r, "^MMT")) &&
      (!peel ==> !Occurs(r, "^MMP") && !Occurs(r, "^MMK"))
    ensures !Occurs(t, DatePlaceholder) && !Occurs(t, TimePlaceholder) && !Occurs(t, PrinterPlaceholder)
      ==> var r := AdjustMedia(t, peel);
        !Occurs(r, DatePlaceholder) && !Occurs(r, TimePlaceholder) && !Occurs(r, PrinterPlaceholder)
  {
    MediaShields();
    CommandsInert();
    var d := ReplaceAll(t, "^MTT", "^MTD");
    ReplaceAllRemoves(t, "^MTT", "^MTD");
    if peel {
      ReplaceAllRemoves(d, "^MMT", "^MMK");
      ReplaceAllPreserves(d, "^MMT", "^MMK", "^MTT");
    } else {
      var e := ReplaceAll(d, "^MMP", "^MMT");
      ReplaceAllRemoves(d, "^MMP", "^MMT");
      ReplaceAllPreserves(d, "^MMP", "^MMT", "^MTT");
      ReplaceAllRemoves(e, "^MMK", "^MMT");
      ReplaceAllPreserves(e, "^MMK", "^MMT", "^MTT");
      ReplaceAllPreserves(e, "^MMK", "^MMT", "^MMP");
    }
    if !Occurs(t, DatePlaceholder) && !Occurs(t, TimePlaceholder) && !Occurs(t, PrinterPlaceholder) {
      CaretKeepsStamp(t, "^MTT", "^MTD");
      if peel {
        CaretKeepsStamp(d, "^MMT", "^MMK");
      } else {
        var e := ReplaceAll(d, "^MMP", "^MMT");
        CaretKeepsStamp(d, "^MMP", "^MMT");
        CaretKeepsStamp(e, "^MMK", "^MMT");
      }
    }
  }

  /** The rendered label: with inert date, time and printer values no
      `$DATE$`, `$TIME$` or `$PRINTER$` is left; whatever the values, no
      `^MTT` is left, a peel-off device gets no `^MMT` and any other device
      neither `^MMP` nor `^MMK`. */
  lemma FinishClean(t: string, printer: string, date: string, time: string, peel: bool)
    ensures var r := Finish(t, printer, date, time, peel);
      !Occurs(r, "^MTT") &&
      (peel ==> !Occurs(r, "^MMT")) &&
      (!peel ==> !Occurs(r, "^MMP") && !Occurs(r, "^MMK"))
    ensures Inert(printer) && Inert(date) && Inert(time) ==>
      var r := Finish(t, printer, date, time, peel);
      !Occurs(r, DatePlaceholder) && !Occurs(r, TimePlaceholder) && !Occurs(r, PrinterPlaceholder)
  {
    var s := Stamp(t, printer, date, time);
    var m := AdjustMedia(s, peel);
    DensityShields();
    CommandsInert();
    AdjustMediaClean(s, peel);
    NormalizePreserves(m, "^MTT");
    if peel {
      NormalizePreserves(m, "^MMT");
    } else {
      NormalizePreserves(m, "^MMP");
      NormalizePreserves(m, "^MMK");
    }
    if Inert(printer) && Inert(date) && Inert(time) {
      StampClean(t, printer, date, time);
      InertShielded(CanonicalDensity);
      NormalizePreserves(m, DatePlaceholder);
      NormalizePreserves(m, TimePlaceholder);
      NormalizePreserves(m, PrinterPlaceholder);
    }
  }

  /** Every print density command of the rendered label is `^PR12,12`:
      normalising it again changes nothing. */
  lemma FinishDensityCanonical(t: string, printer: string, date: string, time: string, peel: bool)
    ensures var r := Finish(t, printer, date, time, peel);
      NormalizeDensity(r) == r
  {
    NormalizeIdempotent(AdjustMedia(Stamp(t, printer, date, time), peel));
  }

  // ---------------------------------------------------------------------
  // Field substitution

  /** Field values that, once encoded, cannot form any field's placeholder. */
  predicate FieldsInert(fields: map<string, string>) {
    forall n, m :: n in fields && m in fields ==>
      '$' !in fields[m] && !Occurs(Placeholder(n), Encoded(fields[m]))
  }

  /** Encoding adds no `$`. */
  lemma {:induction false} EncodedNoDollar(v: string)
    requires '$' !in v
    ensures '$' !in Encoded(v)
    decreases |v|
  {
    if v != [] {
      TableShape();
      assert v[0] in v;
      assert '$' !in v[1..] by {
        forall c | c in v[1..] ensures c in v { }
      }
      EncodedNoDollar(v[1..]);
      assert '$' !in Piece(v[0], Table.Keys);
    }
  }

  /** With inert field values, every field named in `order` has no
      placeholder left once the fields are in, whatever the order. */
  lemma {:induction false} FillRemovesPlaceholders(t: string, fields: map<string, string>, order: seq<string>)
    requires forall i :: 0 <= i < |order| ==> order[i] in fields
    requires FieldsInert(fields)
    ensures forall i :: 0 <= i < |order| ==> !Occurs(FillFields(t, fields, order), Placeholder(order[i]))
    decreases |order|
  {
    if order != [] {
      var init := order[..|order| - 1];
      var last := order[|order| - 1];
      var v := Encoded(fields[last]);
      var prev := FillFields(t, fields, init);
      FillRemovesPlaceholders(t, fields, init);
      EncodedNoDollar(fields[last]);
      forall i | 0 <= i < |order| ensures !Occurs(FillFields(t, fields, order), Placeholder(order[i])) {
        var x := Placeholder(order[i]);
        DelimitedShielded(x, v);
        if i == |order| - 1 {
          ReplaceAllRemoves(prev, Placeholder(last), v);
        } else {
          assert order[i] == init[i];
          ReplaceAllPreserves(prev, Placeholder(last), v, x);
        }
      }
    }
  }

  /** A field order that is a permutation names every field. */
  lemma PermutationCovers(order: seq<string>, fields: map<string, string>)
    requires FieldPermutation(order, fields)
    ensures forall n :: n in fields ==> n in order
  {
    var names := set i | 0 <= i < |order| :: order[i];
    DistinctLength(order, names);
    assert names <= fields.Keys;
    EqualSize(names, fields.Keys);
    forall n | n in fields ensures n in order {
      assert n in names;
    }
  }

  lemma {:induction false} EqualSize<T>(a: set<T>, b: set<T>)
    requires a <= b && |a| == |b|
    ensures a == b
    decreases |a|
  {
    if a == {} {
      assert |b| == 0;
    } else {
      var x :| x in a;
      EqualSize(a - {x}, b - {x});
      assert a == (a - {x}) + {x} && b == (b - {x}) + {x};
    }
  }

  /** Substituted in a permutation of its fields, with inert values, a
      template keeps no placeholder of any of the request's fields. */
  lemma FillCoversFields(t: string, fields: map<string, string>, order: seq<string>)
    requires FieldPermutation(order, fields) && FieldsInert(fields)
    ensures forall n :: n in fields ==> !Occurs(FillFields(t, fields, order), Placeholder(n))
  {
    PermutationCovers(order, fields);
    FillRemovesPlaceholders(t, fields, order);
    forall n | n in fields ensures !Occurs(FillFields(t, fields, order), Placeholder(n)) {
      var i :| 0 <= i < |order| && order[i] == n;
    }
  }

  /** Fields whose placeholders the template does not contain change nothing. */
  lemma {:induction false} FillAbsent(t: string, fields: map<string, string>, order: seq<string>)
    requires forall i :: 0 <= i < |order| ==> order[i] in fields
    requires forall i :: 0 <= i < |order| ==> !Occurs(t, Placeholder(order[i]))
    ensures FillFields(t, fields, order) == t
    decreases |order|
  {
    if order != [] {
      var last := order[|order| - 1];
      FillAbsent(t, fields, order[..|order| - 1]);
      ReplaceAllAbsent(t, Placeholder(last), Encoded(fields[last]));
    }
  }
}
