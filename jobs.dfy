/** What the gateway does with one incoming message: cut it into XML
    documents, wrap the free-text elements in CDATA, and for every parsed
    print order render the label, queue the copies for dispatch and announce
    a status event. */
module Jobs {
  import opened Rewrite
  import opened Text
  import opened Encoding
  import opened Render
  import opened Cdata
  import opened Hub
  import Dispatch

  /** The parsed print order: the head's printer, label and count, and the
      data fields. */
  datatype Document = Document(printer: string, labelName: string, count: string,
                               fields: map<string, string>)

  /** A configured printer: its address and whether it peels labels off. */
  datatype Device = Device(ip: string, peel: bool)

  /** One call of the label sender. */
  datatype Job = Job(ip: string, family: string, zpl: string, retry: int)

  // ---------------------------------------------------------------------
  // The copy count

  /** An empty count and a count of `0` both mean one copy. */
  function DefaultCount(count: string): (c: string)
    ensures c != "" && c != "0"
    ensures count == "" || count == "0" ==> c == "1"
    ensures count != "" && count != "0" ==> c == count
  {
    if count == "0" || count == "" then "1" else count
  }

  predicate AllDigits(s: string) {
    forall i :: 0 <= i < |s| ==> IsDigit(s[i])
  }

  /** The value of a string of decimal digits. */
  function DecimalValue(s: string): nat
    requires AllDigits(s)
    decreases |s|
  {
    if s == [] then 0
    else DecimalValue(s[..|s| - 1]) * 10 + (s[|s| - 1] as int - '0' as int)
  }

  /** The count as a number: an optionally signed decimal; anything else reads as 0. */
  function CountValue(s: string): int {
    if s != [] && AllDigits(s) then DecimalValue(s)
    else if |s| > 1 && s[0] == '-' && AllDigits(s[1..]) then -(DecimalValue(s[1..]) as int)
    else if |s| > 1 && s[0] == '+' && AllDigits(s[1..]) then DecimalValue(s[1..])
    else 0
  }

  /** The number of times the label is sent for a given count field: one for
      `1`, otherwise the count's value, none when it is negative. */
  function Copies(count: string): nat {
    var c := DefaultCount(count);
    if c == "1" then 1 else Dispatch.Max0(CountValue(c))
  }

  /** A missing count or a count of `0` prints one label. */
  lemma CopiesDefault()
    ensures Copies("") == 1 && Copies("0") == 1 && Copies("1") == 1
  {
  }

  /** Any other count of decimal digits prints that many labels. */
  lemma CopiesOfNumber(s: string)
    requires s != [] && AllDigits(s) && s != "0"
    ensures Copies(s) == DecimalValue(s)
  {
  }

  lemma SmallCounts()
    ensures CountValue("") == 0 && CountValue("0") == 0 && CountValue("1") == 1
  {
    assert AllDigits("0") && AllDigits("1");
    assert "0"[..0] == [] && "1"[..0] == [];
  }

  /** The count as evidently intended: a count whose value is 0, however it
      is written, prints one label like `0` does; every other count prints
      what `Copies` prints. */
  function IntendedCopies(count: string): (n: nat)
    ensures CountValue(count) == 0 ==> n == 1
    ensures CountValue(count) != 0 ==> n == Copies(count)
  {
    SmallCounts();
    var v := CountValue(count);
    if v == 0 then 1 else Dispatch.Max0(v)
  }

  /** A count of `00` is not caught by the default and prints nothing. */
  lemma CopiesDoubleZero()
    ensures Copies("00") == 0
  {
    assert AllDigits("00");
    assert "00"[..1] == "0";
    assert DecimalValue("0") == 0 by {
      assert "0"[..0] == [];
    }
  }

  // ---------------------------------------------------------------------
  // One print order

  /** The status event announced for an order with a printer. */
  function StatusFor(d: Document, devices: map<string, Device>, now: string): (m: LogMsg)
    ensures m.msgtype == "label" && m.dst == d.printer && m.labelName == d.labelName
    ensures m.ip == (if d.printer in devices then devices[d.printer].ip else "unknown")
  {
    if d.printer in devices then
      var ip := devices[d.printer].ip;
      LogMsg(now, "Etikett f\U{FC}r " + d.printer + " (" + ip + ") im Format " + d.labelName,
             "label", d.printer, ip, d.labelName, "")
    else
      LogMsg(now, "Etikett f\U{FC}r " + d.printer + " (IP UNKNOWN " + d.printer + ") im Format "
             + d.labelName, "label", d.printer, "unknown", d.labelName, "")
  }

  /** An order is printed when it names a printer that is configured and a
      label that has a template. */
  predicate Printable(d: Document, devices: map<string, Device>, templates: map<string, string>) {
    d.printer != "" && d.printer in devices && d.labelName in templates
  }

  /** The number of dispatches an order causes. */
  function ExpectedJobs(d: Document, devices: map<string, Device>, templates: map<string, string>): nat {
    if Printable(d, devices, templates) then Copies(d.count) else 0
  }

  /** Handle one parsed order.  `now` is the event's time stamp, `date` and
      `time` the values for the `$DATE$` and `$TIME$` placeholders. */
  method ProcessDocument(d: Document, devices: map<string, Device>, templates: map<string, string>,
                         now: string, date: string, time: string)
    returns (jobs: seq<Job>, events: seq<LogMsg>, ghost order: seq<string>)
    ensures d.printer == "" ==> events == []
    ensures d.printer != "" ==> events == [StatusFor(d, devices, now)]
    ensures |jobs| == ExpectedJobs(d, devices, templates)
    ensures FieldPermutation(order, d.fields)
    ensures forall i :: 0 <= i < |jobs| ==>
      (Printable(d, devices, templates) &&
       jobs[i] == Job(devices[d.printer].ip, PrinterType(d.printer),
         Finish(FillFields(templates[d.labelName], d.fields, order), d.printer, date, time,
           devices[d.printer].peel), Dispatch.DefaultRetries))
  {
    jobs := [];
    events := [];
    order := [];
    if |d.printer| != 0 {
      var count := DefaultCount(d.count);
      var family := PrinterType(d.printer);
      var unknown := true;
      var peel := false;
      if d.printer in devices {
        unknown := false;
        peel := devices[d.printer].peel;
      }
      if !unknown && d.labelName in templates {
        jobs, order := PrintOrder(d.fields, count, devices[d.printer].ip, family, d.printer,
                                  templates[d.labelName], peel, date, time);
      } else {
        order := FieldOrder(d.fields);
      }
      events := [StatusFor(d, devices, now)];
    } else {
      order := FieldOrder(d.fields);
    }
  }

  /** The printing of an order whose printer and label are known: the label
      is rendered once and sent as often as the (defaulted) count says. */
  method PrintOrder(fields: map<string, string>, count: string, ip: string, family: string,
                    printer: string, template: string, peel: bool, date: string, time: string)
    returns (jobs: seq<Job>, ghost order: seq<string>)
    ensures FieldPermutation(order, fields)
    ensures |jobs| == (if count == "1" then 1 else Dispatch.Max0(CountValue(count)))
    ensures forall i :: 0 <= i < |jobs| ==>
      jobs[i] == Job(ip, family, Finish(FillFields(template, fields, order), printer, date, time, peel),
                     Dispatch.DefaultRetries)
  {
    var zpl;
    zpl, order := RenderLabel(template, fields, printer, date, time, peel);
    var job := Job(ip, family, zpl, Dispatch.DefaultRetries);
    if count == "1" {
      jobs := [job];
    } else {
      jobs := Repeat(job, CountValue(count));
    }
  }

  /** The copy loop: the label is sent `n` times, not at all when `n` is
      not positive. */
  method Repeat(job: Job, n: int) returns (jobs: seq<Job>)
    ensures |jobs| == Dispatch.Max0(n) && forall i :: 0 <= i < |jobs| ==> jobs[i] == job
  {
    jobs := [];
    var ic := 0;
    while ic < n
      invariant 0 <= ic <= Dispatch.Max0(n)
      invariant |jobs| == ic && forall i :: 0 <= i < ic ==> jobs[i] == job
      decreases n - ic
    {
      jobs := jobs + [job];
      ic := ic + 1;
    }
  }

  /** Some enumeration of the field names, for orders that are not rendered. */
  ghost function FieldOrder(fields: map<string, string>): (order: seq<string>)
    ensures FieldPermutation(order, fields)
    decreases |fields|
  {
    if |fields| == 0 then []
    else
      var n :| n in fields;
      var rest := FieldOrder(fields - {n});
      rest + [n]
  }

  // ---------------------------------------------------------------------
  // One message

  /** The elements whose content is wrapped in CDATA. */
  const Elements: seq<string> := ["BSTKD", "VENDOR_TEXT", "SHIP_FROM_TEXT", "MTTEXT"]

  /** The document a piece of the split message gives, if any. */
  function FragmentOf(piece: string, ele: seq<string>): seq<string> {
    var p := Trim(piece, {' '});
    if p == [] then [] else [CdataAll(XmlProlog + p, ele)]
  }

  function FragmentsFrom(pieces: seq<string>, ele: seq<string>): seq<string>
    decreases |pieces|
  {
    if pieces == [] then []
    else FragmentsFrom(pieces[..|pieces| - 1], ele) + FragmentOf(pieces[|pieces| - 1], ele)
  }

  /** The documents of a message: it is trimmed, cut at every `<?xml ver`,
      and every piece that is not blank is given its prolog back. */
  function Fragments(msg: string): seq<string> {
    FragmentsFrom(Split(TrimSpace(msg), XmlProlog), Elements)
  }

  /** The status event an order announces: one when it names a printer. */
  function DocEvents(q: Document, devices: map<string, Device>, now: string): seq<LogMsg> {
    if q.printer != "" then [StatusFor(q, devices, now)] else []
  }

  /** The dispatches of an order rendered with the field order `order`:
      `Copies(count)` identical jobs when it is printable, none otherwise. */
  function OrderJobs(q: Document, devices: map<string, Device>, templates: map<string, string>,
                     order: seq<string>, date: string, time: string): seq<Job>
    requires FieldPermutation(order, q.fields)
  {
    if Printable(q, devices, templates) then
      var dev := devices[q.printer];
      var job := Job(dev.ip, PrinterType(q.printer),
                     Finish(FillFields(templates[q.labelName], q.fields, order), q.printer, date, time, dev.peel),
                     Dispatch.DefaultRetries);
      seq(Copies(q.count), _ => job)
    else []
  }

  /** One field order per document, each over that document's fields. */
  predicate OrdersFor(docs: seq<string>, orders: seq<seq<string>>, parse: string -> Document) {
    |orders| == |docs| && forall k :: 0 <= k < |docs| ==> FieldPermutation(orders[k], parse(docs[k]).fields)
  }

  /** The status events of a list of documents, in order. */
  function MessageEvents(docs: seq<string>, parse: string -> Document, devices: map<string, Device>,
                         now: string): seq<LogMsg>
    decreases |docs|
  {
    if docs == [] then []
    else MessageEvents(docs[..|docs| - 1], parse, devices, now) + DocEvents(parse(docs[|docs| - 1]), devices, now)
  }

  /** The dispatches of a list of documents, in order; `orders[k]` is the
      field order in which document `k` was rendered. */
  function MessageJobs(docs: seq<string>, orders: seq<seq<string>>, parse: string -> Document,
                       devices: map<string, Device>, templates: map<string, string>,
                       date: string, time: string): seq<Job>
    requires OrdersFor(docs, orders, parse)
    decreases |docs|
  {
    if docs == [] then []
    else
      var n := |docs| - 1;
      MessageJobs(docs[..n], orders[..n], parse, devices, templates, date, time)
        + OrderJobs(parse(docs[n]), devices, templates, orders[n], date, time)
  }

  /** How many status events and how many dispatches a list of documents causes. */
  function EventsTotal(docs: seq<string>, parse: string -> Document): nat
    decreases |docs|
  {
    if docs == [] then 0
    else EventsTotal(docs[..|docs| - 1], parse) + (if parse(docs[|docs| - 1]).printer != "" then 1 else 0)
  }

  function JobsTotal(docs: seq<string>, parse: string -> Document, devices: map<string, Device>,
                     templates: map<string, string>): nat
    decreases |docs|
  {
    if docs == [] then 0
    else (JobsTotal(docs[..|docs| - 1], parse, devices, templates)
          + ExpectedJobs(parse(docs[|docs| - 1]), devices, templates))
  }

  /** The events and dispatches of a message number one event per document
      with a printer and `Copies(count)` dispatches per printable document. */
  lemma {:induction false} MessageCounts(docs: seq<string>, orders: seq<seq<string>>, parse: string -> Document,
                                         devices: map<string, Device>, templates: map<string, string>,
                                         now: string, date: string, time: string)
    requires OrdersFor(docs, orders, parse)
    ensures |MessageEvents(docs, parse, devices, now)| == EventsTotal(docs, parse)
    ensures |MessageJobs(docs, orders, parse, devices, templates, date, time)| == JobsTotal(docs, parse, devices, templates)
    decreases |docs|
  {
    if docs != [] {
      var n := |docs| - 1;
      MessageCounts(docs[..n], orders[..n], parse, devices, templates, now, date, time);
      assert |OrderJobs(parse(docs[n]), devices, templates, orders[n], date, time)| ==
        ExpectedJobs(parse(docs[n]), devices, templates);
    }
  }

  /** A job is sent to the device of one of the documents' printable orders,
      for that printer's family, with the default retry budget. */
  predicate JobForSome(job: Job, docs: seq<string>, parse: string -> Document,
                       devices: map<string, Device>, templates: map<string, string>)
  {
    exists k :: 0 <= k < |docs| && Printable(parse(docs[k]), devices, templates) &&
      job.ip == devices[parse(docs[k]).printer].ip && job.family == PrinterType(parse(docs[k]).printer) &&
      job.retry == Dispatch.DefaultRetries
  }

  /** Every dispatch of a message goes to the printer of one of its printable
      orders, whatever field orders were taken. */
  lemma {:induction false} MessageJobsTargets(docs: seq<string>, orders: seq<seq<string>>,
                                              parse: string -> Document, devices: map<string, Device>,
                                              templates: map<string, string>, date: string, time: string)
    requires OrdersFor(docs, orders, parse)
    ensures forall j :: 0 <= j < |MessageJobs(docs, orders, parse, devices, templates, date, time)| ==>
      JobForSome(MessageJobs(docs, orders, parse, devices, templates, date, time)[j], docs, parse, devices, templates)
    decreases |docs|
  {
    if docs != [] {
      var n := |docs| - 1;
      var init := docs[..n];
      MessageJobsTargets(init, orders[..n], parse, devices, templates, date, time);
      var a := MessageJobs(init, orders[..n], parse, devices, templates, date, time);
      var b := OrderJobs(parse(docs[n]), devices, templates, orders[n], date, time);
      forall j | 0 <= j < |a + b| ensures JobForSome((a + b)[j], docs, parse, devices, templates) {
        if j < |a| {
          assert (a + b)[j] == a[j];
          var k :| 0 <= k < |init| && Printable(parse(init[k]), devices, templates) &&
            a[j].ip == devices[parse(init[k]).printer].ip && a[j].family == PrinterType(parse(init[k]).printer) &&
            a[j].retry == Dispatch.DefaultRetries;
          assert docs[k] == init[k];
        } else {
          assert (a + b)[j] == b[j - |a|];
          assert Printable(parse(docs[n]), devices, templates);
        }
      }
    }
  }

  /** The running events and dispatches of a message absorb one piece's. */
  lemma PieceStep(docs: seq<string>, orders: seq<seq<string>>, doc: seq<string>, os: seq<seq<string>>,
                  jobs: seq<Job>, js: seq<Job>, events: seq<LogMsg>, es: seq<LogMsg>,
                  parse: string -> Document, devices: map<string, Device>, templates: map<string, string>,
                  now: string, date: string, time: string)
    requires OrdersFor(docs, orders, parse) && |os| == |doc| <= 1
    requires events == MessageEvents(docs, parse, devices, now)
    requires jobs == MessageJobs(docs, orders, parse, devices, templates, date, time)
    requires doc == [] ==> es == [] && js == []
    requires doc != [] ==>
      FieldPermutation(os[0], parse(doc[0]).fields) &&
      es == DocEvents(parse(doc[0]), devices, now) &&
      js == OrderJobs(parse(doc[0]), devices, templates, os[0], date, time)
    ensures OrdersFor(docs + doc, orders + os, parse)
    ensures events + es == MessageEvents(docs + doc, parse, devices, now)
    ensures jobs + js == MessageJobs(docs + doc, orders + os, parse, devices, templates, date, time)
  {
    if doc != [] {
      assert doc == [doc[0]] && os == [os[0]];
      OrdersStep(docs, orders, doc[0], os[0], parse);
      EventsStep(docs, doc[0], parse, devices, now);
      JobsStep(docs, orders, doc[0], os[0], parse, devices, templates, date, time);
    } else {
      assert docs + doc == docs && orders + os == orders && jobs + js == jobs && events + es == events;
    }
  }

  lemma OrdersStep(docs: seq<string>, orders: seq<seq<string>>, d: string, o: seq<string>,
                   parse: string -> Document)
    requires OrdersFor(docs, orders, parse) && FieldPermutation(o, parse(d).fields)
    ensures OrdersFor(docs + [d], orders + [o], parse)
  {
    forall k | 0 <= k < |docs| + 1 ensures FieldPermutation((orders + [o])[k], parse((docs + [d])[k]).fields) {
      if k < |docs| {
        assert (orders + [o])[k] == orders[k] && (docs + [d])[k] == docs[k];
      }
    }
  }

  lemma EventsStep(docs: seq<string>, d: string, parse: string -> Document, devices: map<string, Device>,
                   now: string)
    ensures MessageEvents(docs + [d], parse, devices, now) ==
      MessageEvents(docs, parse, devices, now) + DocEvents(parse(d), devices, now)
  {
    assert (docs + [d])[..|docs|] == docs;
  }

  lemma JobsStep(docs: seq<string>, orders: seq<seq<string>>, d: string, o: seq<string>,
                 parse: string -> Document, devices: map<string, Device>, templates: map<string, string>,
                 date: string, time: string)
    requires OrdersFor(docs, orders, parse) && FieldPermutation(o, parse(d).fields)
    requires OrdersFor(docs + [d], orders + [o], parse)
    ensures MessageJobs(docs + [d], orders + [o], parse, devices, templates, date, time) ==
      MessageJobs(docs, orders, parse, devices, templates, date, time)
        + OrderJobs(parse(d), devices, templates, o, date, time)
  {
    assert (docs + [d])[..|docs|] == docs && (orders + [o])[..|orders|] == orders;
  }

  /** The contract of `ProcessDocument` pins its dispatches to `OrderJobs`. */
  lemma JobsOfOrder(jobs: seq<Job>, q: Document, devices: map<string, Device>, templates: map<string, string>,
                    order: seq<string>, date: string, time: string)
    requires FieldPermutation(order, q.fields)
    requires |jobs| == ExpectedJobs(q, devices, templates)
    requires forall i :: 0 <= i < |jobs| ==>
      (Printable(q, devices, templates) &&
       jobs[i] == Job(devices[q.printer].ip, PrinterType(q.printer),
         Finish(FillFields(templates[q.labelName], q.fields, order), q.printer, date, time,
           devices[q.printer].peel), Dispatch.DefaultRetries))
    ensures jobs == OrderJobs(q, devices, templates, order, date, time)
  {
    var o := OrderJobs(q, devices, templates, order, date, time);
    assert |o| == |jobs|;
    forall i | 0 <= i < |jobs| ensures jobs[i] == o[i] { }
  }

  /** One piece of a split message: trimmed, and when not blank given its
      prolog back, wrapped and handed to the parser and the order handling. */
  method HandlePiece(piece: string, parse: string -> Document, devices: map<string, Device>,
                     templates: map<string, string>, now: string, date: string, time: string)
    returns (doc: seq<string>, jobs: seq<Job>, events: seq<LogMsg>, ghost orders: seq<seq<string>>)
    ensures doc == FragmentOf(piece, Elements) && |orders| == |doc| <= 1
    ensures doc == [] ==> events == [] && jobs == []
    ensures doc != [] ==>
      FieldPermutation(orders[0], parse(doc[0]).fields) &&
      events == DocEvents(parse(doc[0]), devices, now) &&
      jobs == OrderJobs(parse(doc[0]), devices, templates, orders[0], date, time)
  {
    doc, jobs, events, orders := [], [], [], [];
    var p := Trim(piece, {' '});
    if |p| != 0 {
      var d := Cdatafy(XmlProlog + p, Elements);
      ghost var order;
      jobs, events, order := ProcessDocument(parse(d), devices, templates, now, date, time);
      JobsOfOrder(jobs, parse(d), devices, templates, order, date, time);
      doc, orders := [d], [order];
    }
  }

  /** The handling of one queued message.  `parse` stands for the XML parser;
      `orders[k]` is the field order in which document `k` was rendered. */
  method HandleMessage(msg: string, parse: string -> Document, devices: map<string, Device>,
                       templates: map<string, string>, now: string, date: string, time: string)
    returns (docs: seq<string>, jobs: seq<Job>, events: seq<LogMsg>, ghost orders: seq<seq<string>>)
    ensures docs == Fragments(msg) && OrdersFor(docs, orders, parse)
    ensures events == MessageEvents(docs, parse, devices, now)
    ensures jobs == MessageJobs(docs, orders, parse, devices, templates, date, time)
    ensures |events| == EventsTotal(docs, parse)
    ensures |jobs| == JobsTotal(docs, parse, devices, templates)
    ensures forall j :: 0 <= j < |jobs| ==> JobForSome(jobs[j], docs, parse, devices, templates)
  {
    var m := TrimSpace(msg);
    var arr := Split(m, XmlProlog);
    docs, jobs, events, orders := [], [], [], [];
    for i := 0 to |arr|
      invariant docs == FragmentsFrom(arr[..i], Elements) && OrdersFor(docs, orders, parse)
      invariant events == MessageEvents(docs, parse, devices, now)
      invariant jobs == MessageJobs(docs, orders, parse, devices, templates, date, time)
    {
      FragmentsStep(arr, i, Elements);
      var doc, js, es, os := HandlePiece(arr[i], parse, devices, templates, now, date, time);
      PieceStep(docs, orders, doc, os, jobs, js, events, es, parse, devices, templates, now, date, time);
      docs, orders := docs + doc, orders + os;
      jobs := jobs + js;
      events := events + es;
    }
    assert arr[..|arr|] == arr;
    MessageCounts(docs, orders, parse, devices, templates, now, date, time);
    MessageJobsTargets(docs, orders, parse, devices, templates, date, time);
  }

  lemma {:induction false} FragmentsStartWithProlog(pieces: seq<string>, ele: seq<string>)
    requires forall i :: 0 <= i < |ele| ==> ele[i] == [] || ele[i][0] != '?'
    ensures forall i :: 0 <= i < |FragmentsFrom(pieces, ele)| ==>
      StartsWith(FragmentsFrom(pieces, ele)[i], XmlProlog)
    decreases |pieces|
  {
    if pieces != [] {
      var init := pieces[..|pieces| - 1];
      FragmentsStartWithProlog(init, ele);
      var a := FragmentsFrom(init, ele);
      var b := FragmentOf(pieces[|pieces| - 1], ele);
      PieceStartsWithProlog(pieces[|pieces| - 1], ele);
      forall i | 0 <= i < |a + b| ensures StartsWith((a + b)[i], XmlProlog) {
        if i < |a| {
          assert (a + b)[i] == a[i];
        } else {
          assert (a + b)[i] == b[i - |a|];
        }
      }
    }
  }

  lemma PieceStartsWithProlog(piece: string, ele: seq<string>)
    requires forall i :: 0 <= i < |ele| ==> ele[i] == [] || ele[i][0] != '?'
    ensures forall i :: 0 <= i < |FragmentOf(piece, ele)| ==> StartsWith(FragmentOf(piece, ele)[i], XmlProlog)
  {
    var p := Trim(piece, {' '});
    if p != [] {
      assert (XmlProlog + p)[..|XmlProlog|] == XmlProlog;
      CdataKeepsProlog(XmlProlog + p, ele);
    }
  }

  /** Every document handed to the parser starts with the XML prolog. */
  lemma MessageFragmentsStartWithProlog(msg: string)
    ensures forall i :: 0 <= i < |Fragments(msg)| ==> StartsWith(Fragments(msg)[i], XmlProlog)
  {
    ElementsPlain();
    FragmentsStartWithProlog(Split(TrimSpace(msg), XmlProlog), Elements);
  }

  lemma ElementsPlain()
    ensures forall i :: 0 <= i < |Elements| ==> Elements[i] == [] || Elements[i][0] != '?'
  {
    assert Elements[0][0] == 'B' && Elements[1][0] == 'V' && Elements[2][0] == 'S' && Elements[3][0] == 'M';
  }

  lemma FragmentsStep(pieces: seq<string>, i: nat, ele: seq<string>)
    requires i < |pieces|
    ensures FragmentsFrom(pieces[..i + 1], ele) == FragmentsFrom(pieces[..i], ele) + FragmentOf(pieces[i], ele)
  {
    assert pieces[..i + 1][..i] == pieces[..i];
  }

  /** A piece that is blank once its spaces are trimmed. */
  predicate Blank(piece: string) {
    Trim(piece, {' '}) == []
  }

  /** A split message gives at most one document per piece, and exactly one
      per piece precisely when no piece is blank. */
  lemma {:induction false} FragmentsPerPiece(pieces: seq<string>, ele: seq<string>)
    ensures |FragmentsFrom(pieces, ele)| <= |pieces|
    ensures |FragmentsFrom(pieces, ele)| == |pieces| <==> forall i :: 0 <= i < |pieces| ==> !Blank(pieces[i])
    decreases |pieces|
  {
    if pieces != [] {
      var n := |pieces| - 1;
      var init := pieces[..n];
      FragmentsPerPiece(init, ele);
      FragmentsLast(pieces, ele);
      NoBlankStep(pieces, init);
    }
  }

  lemma FragmentsLast(pieces: seq<string>, ele: seq<string>)
    requires pieces != []
    ensures |FragmentsFrom(pieces, ele)| ==
      |FragmentsFrom(pieces[..|pieces| - 1], ele)| + (if Blank(pieces[|pieces| - 1]) then 0 else 1)
  {
    FragmentOfSize(pieces[|pieces| - 1], ele);
  }

  lemma FragmentOfSize(piece: string, ele: seq<string>)
    ensures |FragmentOf(piece, ele)| == (if Blank(piece) then 0 else 1)
  {
  }

  lemma NoBlankStep(pieces: seq<string>, init: seq<string>)
    requires pieces != [] && init == pieces[..|pieces| - 1]
    ensures (forall i :: 0 <= i < |pieces| ==> !Blank(pieces[i])) <==>
      (forall i :: 0 <= i < |init| ==> !Blank(init[i])) && !Blank(pieces[|pieces| - 1])
  {
    AllStep(pieces, init, Blank);
  }

  /** No element has property `p`: the same for a list as for its front and its last element. */
  lemma AllStep<T>(xs: seq<T>, init: seq<T>, p: T -> bool)
    requires xs != [] && init == xs[..|xs| - 1]
    ensures (forall i :: 0 <= i < |xs| ==> !p(xs[i])) <==>
      (forall i :: 0 <= i < |init| ==> !p(init[i])) && !p(xs[|xs| - 1])
  {
    assert forall i :: 0 <= i < |init| ==> init[i] == xs[i];
  }
}
