/** The listener that persists submissions (main.py:102-138): each datagram
    is decoded into a form, turned into a record, and merged into the JSON
    store file under the current time.

    The environment is passed in: `parse` stands for `parse_qs(data.decode())`
    (None when the payload is not valid UTF-8, which raises and ends the
    listener), and the timestamps stand for `datetime.now().isoformat()`. */
module Persistence {
  import opened Wrappers
  import opened Relay

  // ---------------------------------------------------------------- records

  /** A decoded form: every key with the list of its values, in order. */
  type Form = map<string, seq<string>>

  /** What the decoder guarantees: a key is present only with at least one value. */
  ghost predicate WellFormedForm(form: Form)
  {
    forall k :: k in form ==> |form[k]| > 0
  }

  /** Every form the decoder produces is well formed. */
  ghost predicate Decoder(parse: Datagram -> Option<Form>)
  {
    forall d :: parse(d).Some? ==> WellFormedForm(parse(d).value)
  }

  /** The object stored for one submission: exactly a username and a message. */
  datatype Record = Record(username: string, message: string)

  /** `form.get(key, [''])[0]`. */
  function FirstValue(form: Form, key: string): string
    requires WellFormedForm(form)
  {
    if key in form then form[key][0] else ""
  }

  /** The record built from a form (main.py:116-119): each field is the first
      value given for its key, or empty when the key is absent. */
  function BuildRecord(form: Form): (r: Record)
    requires WellFormedForm(form)
    ensures "username" in form ==> r.username == form["username"][0]
    ensures "username" !in form ==> r.username == ""
    ensures "message" in form ==> r.message == form["message"][0]
    ensures "message" !in form ==> r.message == ""
  {
    Record(FirstValue(form, "username"), FirstValue(form, "message"))
  }

  /** Keys other than `username` and `message`, and values after the first,
      have no effect on the record. */
  lemma BuildRecordDropsOtherKeys(f1: Form, f2: Form)
    requires WellFormedForm(f1) && WellFormedForm(f2)
    requires "username" in f1 <==> "username" in f2
    requires "message" in f1 <==> "message" in f2
    requires "username" in f1 ==> f1["username"][0] == f2["username"][0]
    requires "message" in f1 ==> f1["message"][0] == f2["message"][0]
    ensures BuildRecord(f1) == BuildRecord(f2)
  {
  }

  /** The form a submission of `r` decodes to: `username=..&message=..`,
      where a field left blank does not appear at all. */
  function FormOf(r: Record): (form: Form)
    ensures form.Keys <= {"username", "message"}
  {
    (if r.username == "" then map[] else map["username" := [r.username]]) +
    (if r.message == "" then map[] else map["message" := [r.message]])
  }

  /** Decoding a submitted record gives back that record, blank fields included. */
  lemma RecordRoundTrip(r: Record)
    ensures WellFormedForm(FormOf(r))
    ensures BuildRecord(FormOf(r)) == r
  {
  }

  // ---------------------------------------------------------------- the store file

  /** The content of `storage/data.json`: no file, a file that is not valid
      JSON, or a JSON object from timestamps to records. */
  datatype Document = Absent | Unparseable | Json(entries: map<string, Record>)

  /** The store as loaded: a missing or unparseable file reads as empty. */
  function Loaded(doc: Document): (m: map<string, Record>)
    ensures doc.Json? ==> m == doc.entries
    ensures !doc.Json? ==> m == map[]
  {
    if doc.Json? then doc.entries else map[]
  }

  /** The object written back by one read-merge-write (main.py:126-135): the
      loaded store with `timestamp` set to `rec`, every other key unchanged. */
  function Merge(doc: Document, timestamp: string, rec: Record): (m: map<string, Record>)
    ensures timestamp in m && m[timestamp] == rec
    ensures m.Keys == Loaded(doc).Keys + {timestamp}
    ensures forall k :: k in Loaded(doc) && k != timestamp ==> m[k] == Loaded(doc)[k]
    ensures |m| == |Loaded(doc)| + (if timestamp in Loaded(doc) then 0 else 1)
    ensures !doc.Json? ==> m == map[timestamp := rec]
  {
    Loaded(doc)[timestamp := rec]
  }

  /** The store file that `save_to_json` reads and rewrites. */
  class StoreFile {
    var document: Document

    constructor (initial: Document)
      ensures document == initial
    {
      document := initial;
    }

    /** `save_to_json(form)` at time `timestamp`: load (empty when missing
        or unparseable), set the key, and write the whole object back. */
    method Save(form: Form, timestamp: string)
      requires WellFormedForm(form)
      modifies this
      ensures document == Json(Merge(old(document), timestamp, BuildRecord(form)))
    {
      var messageData := BuildRecord(form);
      var existingData: map<string, Record>;
      match document {
        case Json(entries) => existingData := entries;
        case Unparseable => existingData := map[];
        case Absent => existingData := map[];
      }
      existingData := existingData[timestamp := messageData];
      document := Json(existingData);
    }
  }

  // ---------------------------------------------------------------- saving in sequence

  /** One save: the record and the time it was stored under. */
  datatype Entry = Entry(timestamp: string, record: Record)

  /** The document after saving the entries one after the other. */
  function SaveAll(doc: Document, es: seq<Entry>): (r: Document)
    ensures es == [] ==> r == doc
    ensures es != [] ==> r.Json?
    decreases |es|
  {
    if es == [] then doc
    else
      var last := es[|es| - 1];
      Json(Merge(SaveAll(doc, es[..|es| - 1]), last.timestamp, last.record))
  }

  /** The timestamps the entries are saved under. */
  function Timestamps(es: seq<Entry>): (r: set<string>)
    ensures forall i :: 0 <= i < |es| ==> es[i].timestamp in r
    ensures forall k :: k in r ==> exists i :: 0 <= i < |es| && es[i].timestamp == k
    decreases |es|
  {
    if es == [] then {}
    else Timestamps(es[..|es| - 1]) + {es[|es| - 1].timestamp}
  }

  /** After a run of saves the store holds exactly the keys it held before
      and the timestamps of the saves. */
  lemma {:induction false} SaveAllKeys(doc: Document, es: seq<Entry>)
    ensures Loaded(SaveAll(doc, es)).Keys == Loaded(doc).Keys + Timestamps(es)
    decreases |es|
  {
    if es != [] {
      var init := es[..|es| - 1];
      SaveAllKeys(doc, init);
    }
  }

  /** A key that no save used keeps the record it had. */
  lemma {:induction false} SaveAllKeepsUntouched(doc: Document, es: seq<Entry>, k: string)
    requires k in Loaded(doc) && k !in Timestamps(es)
    ensures k in Loaded(SaveAll(doc, es)) && Loaded(SaveAll(doc, es))[k] == Loaded(doc)[k]
    decreases |es|
  {
    if es != [] {
      SaveAllKeepsUntouched(doc, es[..|es| - 1], k);
    }
  }

  /** A key holds the record of the last save that used it. */
  lemma {:induction false} SaveAllLastWriteWins(doc: Document, es: seq<Entry>, i: nat)
    requires i < |es|
    requires forall j :: i < j < |es| ==> es[j].timestamp != es[i].timestamp
    ensures es[i].timestamp in Loaded(SaveAll(doc, es))
    ensures Loaded(SaveAll(doc, es))[es[i].timestamp] == es[i].record
    decreases |es|
  {
    if i < |es| - 1 {
      var init := es[..|es| - 1];
      assert init[i] == es[i];
      assert forall j :: i < j < |init| ==> init[j] == es[j];
      SaveAllLastWriteWins(doc, init, i);
    }
  }

  /** Entries with pairwise distinct timestamps, none already in the store. */
  predicate FreshTimestamps(doc: Document, es: seq<Entry>)
  {
    && (forall i, j :: 0 <= i < j < |es| ==> es[i].timestamp != es[j].timestamp)
    && (forall i :: 0 <= i < |es| ==> es[i].timestamp !in Loaded(doc))
  }

  /** Dropping the last entry keeps the timestamps fresh. */
  lemma FreshPrefix(doc: Document, es: seq<Entry>)
    requires es != [] && FreshTimestamps(doc, es)
    ensures FreshTimestamps(doc, es[..|es| - 1])
    ensures es[|es| - 1].timestamp !in Timestamps(es[..|es| - 1])
  {
  }

  /** With fresh timestamps every save adds exactly one key. */
  lemma {:induction false} SaveAllGrowsByOnePerEntry(doc: Document, es: seq<Entry>)
    requires FreshTimestamps(doc, es)
    ensures |Loaded(SaveAll(doc, es))| == |Loaded(doc)| + |es|
    decreases |es|
  {
    if es != [] {
      var init := es[..|es| - 1];
      var last := es[|es| - 1];
      FreshPrefix(doc, es);
      SaveAllGrowsByOnePerEntry(doc, init);
      SaveAllKeys(doc, init);
      var before := SaveAll(doc, init);
      assert last.timestamp !in Loaded(before);
      assert Loaded(SaveAll(doc, es)) == Merge(before, last.timestamp, last.record);
    }
  }

  // ---------------------------------------------------------------- the receive loop

  /** A datagram the loop saves: non-empty, and decodable. */
  predicate Accepts(d: Datagram, parse: Datagram -> Option<Form>)
  {
    d != [] && parse(d).Some?
  }

  /** The number of datagrams saved: those before the first one that is
      empty or does not decode. */
  function Accepted(ds: seq<Datagram>, parse: Datagram -> Option<Form>): (n: nat)
    ensures n <= |ds|
    ensures forall i :: 0 <= i < n ==> Accepts(ds[i], parse)
    ensures n < |ds| ==> !Accepts(ds[n], parse)
  {
    if ds == [] || !Accepts(ds[0], parse) then 0
    else 1 + Accepted(ds[1..], parse)
  }

  /** Why the loop stopped. `InputExhausted` means the modelled input ran
      out; the real loop would go on waiting in `recvfrom`. */
  datatype Halt = EmptyDatagram | DecodeError | InputExhausted

  function HaltOf(ds: seq<Datagram>, parse: Datagram -> Option<Form>): (h: Halt)
    ensures h == EmptyDatagram <==>
              exists i :: 0 <= i < |ds| && ds[i] == [] && forall j :: 0 <= j < i ==> Accepts(ds[j], parse)
    ensures h == InputExhausted <==> forall i :: 0 <= i < |ds| ==> Accepts(ds[i], parse)
  {
    var n := Accepted(ds, parse);
    if n == |ds| then InputExhausted
    else if ds[n] == [] then EmptyDatagram
    else DecodeError
  }

  /** The entries saved for the first `n` datagrams, all of which decode:
      the i-th record under the i-th timestamp. */
  function Entries(ds: seq<Datagram>, ts: seq<string>, parse: Datagram -> Option<Form>, n: nat): (es: seq<Entry>)
    requires n <= |ds| && n <= |ts|
    requires Decoder(parse)
    requires forall i :: 0 <= i < n ==> Accepts(ds[i], parse)
    ensures |es| == n
    ensures forall i :: 0 <= i < n ==>
              parse(ds[i]).Some? && es[i] == Entry(ts[i], BuildRecord(parse(ds[i]).value))
  {
    assert forall i :: 0 <= i < n ==> Accepts(ds[i], parse) && parse(ds[i]).Some?;
    seq(n, i requires 0 <= i < n && parse(ds[i]).Some? && WellFormedForm(parse(ds[i]).value) =>
             Entry(ts[i], BuildRecord(parse(ds[i]).value)))
  }

  /** Saving one more accepted datagram appends one entry. */
  lemma EntriesExtend(ds: seq<Datagram>, ts: seq<string>, parse: Datagram -> Option<Form>, n: nat)
    requires n < |ds| && n < |ts|
    requires Decoder(parse)
    requires forall i :: 0 <= i <= n ==> Accepts(ds[i], parse)
    ensures Entries(ds, ts, parse, n + 1) ==
            Entries(ds, ts, parse, n) + [Entry(ts[n], BuildRecord(parse(ds[n]).value))]
  {
  }

  /** The stopping index is the first datagram that is not accepted. */
  lemma AcceptedIsFirstRejection(ds: seq<Datagram>, parse: Datagram -> Option<Form>, k: nat)
    requires k <= |ds|
    requires forall i :: 0 <= i < k ==> Accepts(ds[i], parse)
    requires k < |ds| ==> !Accepts(ds[k], parse)
    ensures Accepted(ds, parse) == k
  {
  }

  /** The store document once the loop has consumed `ds`, the i-th datagram
      arriving at time `ts[i]`. */
  function Final(doc: Document, ds: seq<Datagram>, ts: seq<string>, parse: Datagram -> Option<Form>): Document
    requires |ds| == |ts|
    requires Decoder(parse)
  {
    var n := Accepted(ds, parse);
    SaveAll(doc, Entries(ds, ts, parse, n))
  }

  /** The `while True` loop of `start_socket_server`: receive, stop on an
      empty datagram, otherwise decode and save, in arrival order. */
  method Serve(store: StoreFile, datagrams: seq<Datagram>, timestamps: seq<string>,
               parse: Datagram -> Option<Form>)
      returns (halt: Halt, saved: nat)
    requires |timestamps| == |datagrams|
    requires Decoder(parse)
    modifies store
    ensures saved == Accepted(datagrams, parse)
    ensures halt == HaltOf(datagrams, parse)
    ensures store.document == Final(old(store.document), datagrams, timestamps, parse)
  {
    saved := 0;
    while saved < |datagrams|
      invariant saved <= |datagrams|
      invariant forall i :: 0 <= i < saved ==> Accepts(datagrams[i], parse)
      invariant store.document ==
                  SaveAll(old(store.document), Entries(datagrams, timestamps, parse, saved))
    {
      var data := datagrams[saved];
      if data == [] {
        AcceptedIsFirstRejection(datagrams, parse, saved);
        halt := EmptyDatagram;
        return;
      }
      var formData := parse(data);
      if formData.None? {
        AcceptedIsFirstRejection(datagrams, parse, saved);
        halt := DecodeError;
        return;
      }
      store.Save(formData.value, timestamps[saved]);
      EntriesExtend(datagrams, timestamps, parse, saved);
      saved := saved + 1;
    }
    AcceptedIsFirstRejection(datagrams, parse, saved);
    halt := InputExhausted;
  }

  // ---------------------------------------------------------------- properties of the loop

  /** Datagrams after the one that stops the loop are never looked at. */
  lemma {:induction false} AcceptedIgnoresSuffix(ds: seq<Datagram>, rest: seq<Datagram>,
                                                 parse: Datagram -> Option<Form>)
    requires Accepted(ds, parse) < |ds|
    ensures Accepted(ds + rest, parse) == Accepted(ds, parse)
  {
    if Accepts(ds[0], parse) {
      assert (ds + rest)[1..] == ds[1..] + rest;
      AcceptedIgnoresSuffix(ds[1..], rest, parse);
    }
  }

  /** Once an empty datagram has arrived, nothing that follows it changes the
      store or why the loop stopped. */
  lemma StopIgnoresLaterDatagrams(doc: Document, ds: seq<Datagram>, ts: seq<string>,
                                  rest: seq<Datagram>, tsRest: seq<string>,
                                  parse: Datagram -> Option<Form>)
    requires |ds| == |ts| && |rest| == |tsRest|
    requires Decoder(parse)
    requires HaltOf(ds, parse) == EmptyDatagram
    ensures HaltOf(ds + rest, parse) == EmptyDatagram
    ensures Final(doc, ds + rest, ts + tsRest, parse) == Final(doc, ds, ts, parse)
  {
    var n := Accepted(ds, parse);
    AcceptedIgnoresSuffix(ds, rest, parse);
    assert (ds + rest)[n] == ds[n];
    assert Entries(ds + rest, ts + tsRest, parse, n) == Entries(ds, ts, parse, n);
  }

  /** With fresh, distinct timestamps the loop stores one record per datagram
      before the stop, each under its own arrival time, keeps every old
      entry, and stores nothing for the datagrams from the stop on. */
  lemma ServeStoresEachAcceptedDatagram(doc: Document, ds: seq<Datagram>, ts: seq<string>,
                                        parse: Datagram -> Option<Form>)
    requires |ds| == |ts|
    requires Decoder(parse)
    requires forall i, j :: 0 <= i < j < |ts| ==> ts[i] != ts[j]
    requires forall i :: 0 <= i < |ts| ==> ts[i] !in Loaded(doc)
    ensures var n := Accepted(ds, parse);
            var m := Loaded(Final(doc, ds, ts, parse));
            && |m| == |Loaded(doc)| + n
            && (forall i :: 0 <= i < n ==> ts[i] in m && m[ts[i]] == BuildRecord(parse(ds[i]).value))
            && (forall j :: n <= j < |ds| ==> ts[j] !in m)
            && (forall k :: k in Loaded(doc) ==> k in m && m[k] == Loaded(doc)[k])
  {
    var n := Accepted(ds, parse);
    var es := Entries(ds, ts, parse, n);
    var m := Loaded(SaveAll(doc, es));
    assert FreshTimestamps(doc, es);
    SaveAllGrowsByOnePerEntry(doc, es);
    forall i | 0 <= i < n
      ensures ts[i] in m && m[ts[i]] == BuildRecord(parse(ds[i]).value)
    {
      assert es[i] == Entry(ts[i], BuildRecord(parse(ds[i]).value));
      SaveAllLastWriteWins(doc, es, i);
    }
    forall j | n <= j < |ds|
      ensures ts[j] !in m
    {
      LaterTimestampUnused(doc, es, ts, n, j);
    }
    forall k | k in Loaded(doc)
      ensures k in m && m[k] == Loaded(doc)[k]
    {
      SaveAllKeepsUntouched(doc, es, k);
    }
  }

  /** A timestamp that no entry used and that was not in the store stays absent. */
  lemma LaterTimestampUnused(doc: Document, es: seq<Entry>, ts: seq<string>, n: nat, j: nat)
    requires n <= j < |ts| && |es| == n
    requires forall i :: 0 <= i < n ==> es[i].timestamp == ts[i]
    requires forall i, j :: 0 <= i < j < |ts| ==> ts[i] != ts[j]
    requires ts[j] !in Loaded(doc)
    ensures ts[j] !in Loaded(SaveAll(doc, es))
  {
    SaveAllKeys(doc, es);
    assert ts[j] !in Timestamps(es);
  }

  /** Two saves under the same timestamp leave one entry: the second record. */
  lemma SameTimestampOverwrites(doc: Document, ts: string, r1: Record, r2: Record)
    ensures var m := Loaded(SaveAll(doc, [Entry(ts, r1), Entry(ts, r2)]));
            m[ts] == r2 && |m| == |Loaded(doc)| + (if ts in Loaded(doc) then 0 else 1)
  {
  }
}
