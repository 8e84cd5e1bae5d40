# A verified model of the print gateway `ups.go`

The gateway accepts print orders over raw TCP and HTTP. Each order is an XML
document naming a printer, a label template, a copy count and data fields.
The gateway:

- splits the message into documents;
- wraps some free-text elements in CDATA;
- fills the order's fields into the ZPL template, after escaping the
  characters the printer cannot take;
- adjusts the media and print-density commands to the device;
- sends the label once per copy to the printer's TCP port, with a bounded
  number of retries;
- announces one status event per order through a hub that fans the event out
  to every subscribed status stream.

The model is split into modules that follow the program:

- `Rewrite` (`rewrite.dfy`) is a left-to-right, non-overlapping rewriting scanner. It stands for Go's `strings.Replace(s, old, new, -1)` and for the regular-expression rewrite `\^PR\d+,\d+` → `^PR12,12`. It also has `strings.Split`/`Join` and the theory of when one rewrite cannot undo another.
- `Text` (`text.dfy`): `normalizeLabelName`, `PrinterType`, `toISODate`, `toUtf8`, and the `strings` helpers they use.
- `Encoding` (`encoding.dfy`): the escaping of one field value (backslash first, then the `sonderzeichen` table).
- `Render` (`render.dfy`): the rendering block of `PrintMessages`.
- `Cdata` (`cdata.dfy`): `cdatafy`.
- `Dispatch` (`dispatch.dfy`): `sendLabelToZebra`. Connection outcomes come from an oracle `nat -> Outcome`.
- `Hub` (`hub.dfy`): the `Connections` event hub as a class over a set of subscribers.
- `Jobs` (`jobs.dfy`): what `PrintMessages` does with one message and with one parsed order.
- `Intake` (`intake.dfy`): the TCP read loop, the HTTP request router, and the event-stream loop with its heartbeat counter.

Go strings are modelled as sequences of characters (runes). The date and
time stamped into a label, the event time stamp, the XML parser and the
UTF-8 decoding of read bytes are parameters. The order in which Go iterates
a map is left open: each such loop picks its next key with `:|`. The method
returns the order it took as a ghost value, and every promise holds for
every order.

Field substitution depends on that order when one field's encoded value
contains another field's `$name$` placeholder, so no property of the
substituted label is claimed for a particular order. The placeholders of
all fields are gone, whatever the order, when no field value contains
a `$` and no encoded value is part of a field's placeholder (`FieldsInert`).
Every order a rendering takes is a permutation of the request's fields
(`Render.FieldPermutation`), so after substitution, before the stamp and the
media and density rewrites, no field of the request keeps its placeholder
(`Render.FillCoversFields`). Nothing is claimed about field placeholders in
the finished label: a stamped value can complete one (the template
`$na$PRINTER$e$` stamped with the printer `m` gives `$name$`). The escaping of one value is
proved independent of the order in which the table is walked.

The sender's outcome is characterised exactly by `Dispatch.RunFails`. One
might expect the call to fail once the retry budget is spent, but the code
(ups.go:146-169) behaves differently:

- A write failure on the last attempt is reported as success
  (ups.go:149-159, `Dispatch.WriteFailAtZero`).
- A failure therefore does not mean that every attempt failed to connect. An
  attempt can connect and fail to write, and then a last attempt that cannot
  connect still reports failure.

The model follows the code.

## Model

| member | source | states |
|---|---|---|
| `Text.NormalizedNameClean` | ups.go:60-65 | a normalised label name contains no capital letter, no space, no `_` and no `-`, and neither of its ends is white space |
| `Text.NormalizeLabelNameIdempotent` | ups.go:60-65 | normalising a normalised name changes nothing |
| `Text.PrinterTypeClean` | ups.go:541-544 | a character is in the family exactly when it is in the printer name and is neither a digit nor a space |
| `Text.PrinterTypeIdempotent` | ups.go:541-544 | the family of a family is itself |
| `Text.PrinterTypeOfPlainName` | ups.go:541-544 | a name without digits and spaces is its own family |
| `Text.ToISODate` | ups.go:252-260 | `00000000` gives the empty string; a string that is not eight characters long is returned unchanged |
| `Text.ToISODateRoundTrip` | ups.go:256-258 | any other eight characters give ten characters with dashes at positions 4 and 7, and removing the dashes gives back the input |
| `Text.ToISODateInjective` | ups.go:252-260 | different eight-character dates other than the zero date give different ISO dates |
| `Text.ToUtf8` | ups.go:124-130 | the text has one character per byte, with that byte's code, so Latin-1 encoding it gives back the bytes |
| `Text.TrimIdempotent` | ups.go:63 | trimming twice is trimming once |
| `Text.TrimShape` | ups.go:63 | trimming removes exactly a run of cut characters at each end and keeps the middle |
| `Encoding.EncodeField` | ups.go:453-456 | the loop over the table, in any map order, yields `Encoded(value)`: backslashes escaped first, then every table character replaced by its escape |
| `Encoding.EncodedHasNoKey` | ups.go:99-110 | no character of the table is left in an encoded value |
| `Encoding.EncodedPlain` | ups.go:453-456 | a value without a backslash and without table characters is unchanged |
| `Encoding.DecodeEncoded` | ups.go:99-110 | the encoding is inverted by reading every escape back, so no two values encode alike |
| `Encoding.EncodedInjective` | ups.go:453-456 | two values with the same encoding are equal |
| `Encoding.KeyStep` | ups.go:455-456 | replacing one more table character yields the encoding with that character added to the done set, whatever was done before |
| `Render.RenderLabel` | ups.go:447-473 | the rendered label is the template with every field substituted, in the order the map was walked (each field once), followed by the fixed rewrite chain; the order taken is a `FieldPermutation` of the fields |
| `Render.FillRemovesPlaceholders` | ups.go:451-460 | when no encoded value can form a placeholder, no `$name$` of any field is left after substitution |
| `Render.FillCoversFields` | ups.go:451-460 | substituted in a permutation of the fields, with inert values, no `$name$` of any of the request's fields is left after substitution, before the stamp and the media and density rewrites |
| `Render.FillAbsent` | ups.go:451-460 | a template without the fields' placeholders is left unchanged |
| `Render.StampClean` | ups.go:462-464 | after stamping date, time and printer into a template no `$DATE$`, `$TIME$` or `$PRINTER$` remains, when the values contain no `$` and are not part of a placeholder (`Inert`; an empty value is not, since replacing `$DATE$` by nothing in `$$DATE$DATE$` forms `$DATE$` again) |
| `Render.AdjustMediaClean` | ups.go:465-472 | no `^MTT` remains; on a peel-off device no `^MMT`; on any other device neither `^MMP` nor `^MMK`; the rewrite leaves the stamp free of placeholders |
| `Render.FinishClean` | ups.go:462-473 | the media properties survive the density rewrite, and so does the absence of the three placeholders |
| `Render.FinishDensityCanonical` | ups.go:473 | every `^PR` density command of the rendered label is already `^PR12,12`: normalising again changes nothing |
| `Rewrite.NormalizeIdempotent` | ups.go:473 | the density rewrite is idempotent |
| `Rewrite.ReplaceAllRemoves` | ups.go:465-472 | a replacement whose new text cannot recreate the old one leaves no occurrence of the old text |
| `Rewrite.ReplaceAllPreserves` | ups.go:462-472 | a replacement whose new text cannot create a pattern that was absent keeps it absent |
| `Rewrite.ReplaceAllIsSplitJoin` | ups.go:417 | replacing every occurrence is splitting on it and joining with the new text |
| `Rewrite.SplitJoinRoundTrip` | ups.go:417 | joining the pieces with the separator gives back the text |
| `Rewrite.SplitPiecesFree` | ups.go:417 | no piece of a split contains the separator |
| `Cdata.Cdatafy` | ups.go:396-402 | the loop over the element names yields `CdataAll`: for each element, closing tags are rewritten first, then opening tags |
| `Cdata.CdataUntouched` | ups.go:396-402 | a document without the listed tags is returned unchanged |
| `Cdata.CdataWraps` | ups.go:396-402 | the content of an element that holds no markup ends up inside one CDATA section |
| `Cdata.CdataKeepsProlog` | ups.go:421-422 | a document that starts with `<?xml ver` still does after the wrapping |
| `Dispatch.RewriteExtIdempotent` | ups.go:134-140 | renaming `.zpl` references twice is renaming them once, and no `.zpl` remains, so every retry sends the same bytes |
| `Dispatch.Run` | ups.go:132-170 | the call makes at least one attempt and at most `retry + 1` |
| `Dispatch.RunFails` | ups.go:132-170 | the call fails exactly when no attempt wrote the label within the budget and the last attempt could not connect; a failing call has used the whole budget |
| `Dispatch.AllConnectsFail` | ups.go:163-169 | when every connection attempt fails, the call fails after `retry + 1` attempts |
| `Dispatch.WriteFailAtZero` | ups.go:151-160 | a write failure with no retries left still reports success |
| `Dispatch.StopsAtFirstWrite` | ups.go:148-160 | after k failed attempts within the budget, the next attempt that writes ends the call with success after k + 1 attempts |
| `Dispatch.SendLabel` | ups.go:132-170 | the address is the IP with the family's port; the result and the attempt count are those of the retry rule; every connected attempt writes the renamed label followed by `\r\n\r\n` |
| `Hub.Connections.Add` | ups.go:43-45 | the subscriber set gains the new stream and keeps every other |
| `Hub.Connections.Remove` | ups.go:47-49 | the subscriber set loses that stream and keeps every other |
| `Hub.Connections.Publish` | ups.go:51-54 | every current subscriber receives the message once, at the end of what it had, and the set is unchanged |
| `Hub.Connections.Serve` | ups.go:39-57 | after a sequence of requests the set is `Members(...)` of them, and each stream has received exactly the messages published while it was subscribed |
| `Hub.PublishReaches` | ups.go:51-54 | the one-step fact the two lemmas below build on: after any history, a published message is appended to what a stream received exactly when the stream is subscribed at that point, and the set does not change |
| `Hub.AddedStays` | ups.go:43-49 | a stream added at some point stays subscribed through any later requests that do not remove it |
| `Hub.RemovedGetsNothing` | ups.go:47-54 | a stream removed at some point receives nothing, and stays unsubscribed, through any later requests that do not add it again |
| `Jobs.DefaultCount` | ups.go:426-428 | an empty count and `0` become `1`; any other count is kept |
| `Jobs.CopiesDefault` | ups.go:426-428 | an empty count, `0` and `1` each print one label |
| `Jobs.CopiesOfNumber` | ups.go:476-485 | any other count of decimal digits prints that many labels |
| `Jobs.CopiesDoubleZero` | ups.go:426-485 | the count `00` escapes the default and prints no label |
| `Jobs.IntendedCopies` | ups.go:426-485 | with the correction, every count whose value is 0 prints one label, and every other count prints what the code prints |
| `Jobs.StatusFor` | ups.go:488-494 | the event is of type `label` for the order's printer and label, with the printer's IP, or `unknown` when the printer is not configured |
| `Jobs.ProcessDocument` | ups.go:424-497 | an order without a printer does nothing; otherwise it announces exactly one status event. It is dispatched `Copies(count)` times exactly when the printer is configured and the label has a template; every dispatch carries the device's IP, the printer's family, the label rendered in a permutation of the order's fields, and 3 retries |
| `Jobs.PrintOrder` | ups.go:444-485 | the label is rendered once and sent once for the count `1`, otherwise as many times as the count's value (none when it is not positive); each dispatch carries the given IP, family, the label rendered in a permutation of the fields, and 3 retries |
| `Jobs.Repeat` | ups.go:479-484 | the copy loop sends the same job exactly `n` times, and not at all when `n` is not positive |
| `Jobs.HandlePiece` | ups.go:418-426 | a piece of the split message gives no document when it is blank after trimming spaces, otherwise exactly its fragment; its events are that document's status event (`DocEvents`) and its dispatches the rendered copies of its order (`OrderJobs`), for the field order taken, which is a permutation of the document's fields |
| `Jobs.HandleMessage` | ups.go:414-499 | the documents handled are the message's fragments; the events are one `StatusFor` event per document with a printer, in document order; the dispatches are, document by document, `Copies(count)` jobs of each printable order with its device's IP, its printer's family, its label rendered in a permutation of its fields (`OrdersFor`) and 3 retries; in number these are `EventsTotal` and `JobsTotal`, and every dispatch goes to the device of one of the message's printable orders |
| `Jobs.MessageCounts` | ups.go:424-485 | a message's events number one per document with a printer, and its dispatches `Copies(count)` per printable document |
| `Jobs.MessageJobsTargets` | ups.go:476-485 | every dispatch of a message carries the IP and family of one of its printable orders and 3 retries, whatever field orders were taken |
| `Jobs.FragmentsStartWithProlog` | ups.go:417-422 | every document handed to the parser starts with `<?xml ver` |
| `Jobs.MessageFragmentsStartWithProlog` | ups.go:414-422 | the same for the fragments of a whole message |
| `Jobs.FragmentsPerPiece` | ups.go:417-420 | a split message gives at most one document per piece, and exactly one per piece precisely when no piece is blank after trimming spaces |
| `Intake.Enqueue` | ups.go:275-280 | the queued text is the address, `<LOADBALANCER>` and the body; the host is the text before the first `:` of the address, and the port the text after it up to the next `:` or the end, as `strings.Split(addr, ":")[0]` and `[1]` give them |
| `Intake.TcpSession` | ups.go:262-286 | the reader queues `TcpQueue(...)`: every read up to the first failed or empty read is looked at, and only reads of more than 20 bytes are queued |
| `Intake.TcpQueueIsLongServed` | ups.go:266-281 | the queue is exactly the reads of more than 20 bytes before the first stop, in order |
| `Intake.TcpIgnoresAfterStop` | ups.go:267-270 | reads after a stopping read do not change what is queued |
| `Intake.ServedShape` | ups.go:267-270 | the reads served are a prefix in which no read stops the reader, and the read after them does |
| `Intake.PostedRequest` | ups.go:289-293 | a body is a print request exactly when it was read, is not blank once trimmed, and contains `<Printer>`; then the request is the trimmed body |
| `Intake.PostedRequestTrimmed` | ups.go:290-291 | the queued body is trimmed: trimming it again leaves it unchanged |
| `Intake.RouteEnqueues` | ups.go:289-301 | a request is queued, whatever its path, exactly when its body is a print request, under the sender's address |
| `Intake.CalibrateRoute` | ups.go:337-340 | `/send/calibrate/<printer>` names the calibration command for that printer |
| `Intake.StreamSession` | ups.go:360-385 | the stream loop computes `StreamRun` over the events it waits for |
| `Intake.StreamCounterBounded` | ups.go:360-385 | the quiet-minute counter never passes 1440 |
| `Intake.StreamUnsubscribes` | ups.go:380-384 | the stream leaves the hub exactly when it consumed a disconnect |
| `Intake.QuietMinutes` | ups.go:371-378 | a quiet minute counts one heartbeat and does not unsubscribe |
| `Intake.QuietStreamStaysSubscribed` | ups.go:360-385 | a stream that stays quiet for 1440 minutes ends its loop still subscribed |
| `Intake.ClosedStream` | ups.go:360-385 | with the correction, a stream that ends at the limit is unsubscribed and writes the same frames |
| `Intake.ClosedStreamUnsubscribes` | ups.go:360-385 | with the correction, a stream is unsubscribed exactly when its loop has ended |

## Left out

- Sockets, the HTTP server, flushing, deadlines, `time.Sleep` backoff, goroutines and channels. Reads, connect/write outcomes and stream waits are sequences or oracles. The hub's loop is a method over a sequence of requests.
- The concurrency of copies: each copy is one `Job` record, not a goroutine.
- The `recover()` wrapper of `PrintMessages`. A panic inside it is not modelled.
- `time.Now()` and its formatting: the date, time and event time stamp are parameters.
- `ParseDocumentXML`, the printer table and the template table. They are a parser function and two maps given as parameters; `LoadPrinter` and `ParseLabels` are not part of this model.
- Dispatch call count: `Jobs.ProcessDocument` records the calls to `sendLabelToZebra`; the sender itself is `Dispatch.SendLabel`.
- `sendDataToZebra`, `sendCmdToZebra`, `getInfoFromZebra`, the index page and the reload routes: the router only names them.
- `Intake.SendRoute`: a `/send/` request yields the command and the printer name; the printer-table lookup of `sendCmdToZebra` (ups.go:206-211), which sends to that printer's IP on its family's port and sends nothing for an unknown name, is not modelled.
- `as.Int`: read as an optional sign followed by decimal digits, anything else as 0. It is unbounded, so int64 overflow of a huge count is not modelled.
- JSON encoding of status events: a data frame carries the event record, not its JSON text.
- `Text.ToISODate`: Go slices and measures the string in bytes, the model in characters. The two differ only for non-ASCII input.
- `Text.IsUpper`: `strings.ToLower` is modelled for ASCII and Latin-1 letters only. Other scripts are left as they are.
- `Encoding.Table`: every key is a single character, as in the source's table; multi-character keys are not modelled.
- `Intake.TcpSession`: a read is the bytes of one `Read` call. The 4096-byte buffer size and the read deadline are not modelled (ups.go:264 sets one deadline 32 seconds after the connection opens and never renews it), and the TCP reader's `utf8` conversion is a parameter.
- `Intake.Enqueue`: requires the address to contain `:`. Go would panic on an address without a port; the HTTP and TCP servers always supply one.
- `Intake.StreamSession`: a stream path other than `/events/sse` and `/events/lp` writes no frames, as in the source. The model stops when the event sequence ends, so an open stream is a finite prefix of its events.

## Findings

| source | as written | input that shows it | evidently intended | confidence | as-written member | corrected member |
|---|---|---|---|---|---|---|
| ups.go:360-385 | the stream handler's loop unsubscribes only on a disconnect; when 1440 quiet minutes end the loop, the handler returns and its channel stays in the hub's set, so the next publish blocks on a channel nobody reads | 1440 consecutive 60-second waits without an event or a disconnect | the subscriber is removed from the hub on every exit from the loop | not executed; medium | `Intake.QuietStreamStaysSubscribed` | `Intake.ClosedStreamUnsubscribes` |
| ups.go:426-485 | only the counts `""` and `"0"` are defaulted to `1`; any other count of value 0, such as `00`, reaches the copy loop and prints no label | the count `00` | a count of value 0 prints one label, however it is written | not executed; low | `Jobs.CopiesDoubleZero` | `Jobs.IntendedCopies` |

In both rows the operations of the model follow the code as written; the corrected member is stated and proved beside them.
