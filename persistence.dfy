/**
 * The macro file: saving a macro as `[[record, ...]]` and loading the
 * records back. A record is a list whose first element is the action's tag;
 * the payload fields after it are written and read by each action class
 * (its `save` and `restore`), which this model takes as a `RecordFormat`.
 */
module Persistence {
  import opened Wrappers
  import opened Actions
  import opened Documents

  /**
   * The action classes' own record code: `write` gives the payload fields
   * that follow the tag, and the readers restore a payload from a whole record.
   */
  datatype RecordFormat = RecordFormat(
    write: Action -> seq<Doc>,
    readKeys: Doc -> seq<Keycode>,
    readText: Doc -> string,
    readDelay: Doc -> nat)

  /** `act.save()`: the tag of the action's kind, then its payload fields. */
  function SaveRecord(fmt: RecordFormat, a: Action): (r: Doc)
    ensures Classify(r) == Success(Some(KindOf(a)))
  {
    var r := JList([JStr(TagOf(KindOf(a)))] + fmt.write(a));
    ClassifyKnown(r, KindOf(a));
    r
  }

  /** One saved record per action, in action order. */
  function SaveRecords(acts: seq<Action>, fmt: RecordFormat): (r: seq<Doc>)
    ensures |r| == |acts|
    ensures forall i :: 0 <= i < |acts| ==> r[i] == SaveRecord(fmt, acts[i])
  {
    if acts == [] then []
    else SaveRecords(acts[..|acts| - 1], fmt) + [SaveRecord(fmt, acts[|acts| - 1])]
  }

  /** The saved document: a one-element list wrapping the record list. */
  function SaveDocument(acts: seq<Action>, fmt: RecordFormat): (d: Doc)
    ensures First(d) == Success(JList(SaveRecords(acts, fmt)))
    ensures d.JList? && |d.items| == 1
  {
    JList([JList(SaveRecords(acts, fmt))])
  }

  /** `obj = tag_to_action[tag](); obj.restore(record)`: an action of the kind the tag selected. */
  function Restore(fmt: RecordFormat, k: Kind, record: Doc): (a: Action)
    ensures KindOf(a) == k
  {
    match k
    case KindDown => Down(fmt.readKeys(record))
    case KindUp => Up(fmt.readKeys(record))
    case KindTap => Tap(fmt.readKeys(record))
    case KindText => Text(fmt.readText(record))
    case KindDelay => Delay(fmt.readDelay(record))
  }

  /** The action classes read back every record they write. */
  ghost predicate RoundTrips(fmt: RecordFormat)
  {
    forall a :: Restore(fmt, KindOf(a), SaveRecord(fmt, a)) == a
  }

  /**
   * The actions a load appends, in order, and the exception that stopped it,
   * if a record raised one. Actions appended before the exception stay.
   */
  datatype Loaded = Loaded(acts: seq<Action>, failure: Option<Error>)

  /**
   * The loader's loop over the records, one record at a time in file order:
   * a record with a known tag is restored and appended, one with an unknown
   * tag is skipped, and one that raises ends the load.
   */
  function LoadRecords(records: seq<Doc>, fmt: RecordFormat): (r: Loaded)
    ensures |r.acts| <= |records|
  {
    if records == [] then Loaded([], None)
    else
      var before := LoadRecords(records[..|records| - 1], fmt);
      var last := records[|records| - 1];
      if before.failure.Some? then before
      else match Classify(last)
        case Failure(e) => Loaded(before.acts, Some(e))
        case Success(None) => before
        case Success(Some(k)) => Loaded(before.acts + [Restore(fmt, k, last)], None)
  }

  /** One turn of the loader's loop: the record at `i` decides how the load goes on. */
  lemma LoadStep(records: seq<Doc>, i: nat, fmt: RecordFormat)
    requires i < |records|
    ensures var before, known := LoadRecords(records[..i], fmt), Classify(records[i]);
      before.failure.None? ==>
      LoadRecords(records[..i + 1], fmt) ==
        if known.Failure? then Loaded(before.acts, Some(known.error))
        else if known.value.None? then before
        else Loaded(before.acts + [Restore(fmt, known.value.value, records[i])], None)
  {
    assert records[..i + 1][..i] == records[..i];
  }

  /**
   * A load ends in an exception exactly when some record raises one, and the
   * exception it ends in is one that a record raised.
   */
  lemma {:induction false} LoadFailure(records: seq<Doc>, fmt: RecordFormat)
    ensures LoadRecords(records, fmt).failure.None? <==>
      forall i :: 0 <= i < |records| ==> Classify(records[i]).Success?
    ensures LoadRecords(records, fmt).failure.Some? ==>
      exists i :: 0 <= i < |records| && Classify(records[i]) == Failure(LoadRecords(records, fmt).failure.value)
  {
    if records != [] {
      var n := |records| - 1;
      var front := records[..n];
      LoadFailure(front, fmt);
      assert forall i :: 0 <= i < n ==> front[i] == records[i];
      if LoadRecords(front, fmt).failure.Some? {
        var i :| 0 <= i < n && Classify(front[i]) == Failure(LoadRecords(front, fmt).failure.value);
        assert Classify(records[i]) == Failure(LoadRecords(records, fmt).failure.value);
      }
    }
  }

  /** Loading one record: a known tag gives one action of its kind, an unknown one nothing. */
  lemma LoadOne(record: Doc, fmt: RecordFormat)
    ensures Classify(record).Failure? ==> LoadRecords([record], fmt) == Loaded([], Some(Classify(record).error))
    ensures Classify(record) == Success(None) ==> LoadRecords([record], fmt) == Loaded([], None)
    ensures forall k :: Classify(record) == Success(Some(k)) ==>
      LoadRecords([record], fmt) == Loaded([Restore(fmt, k, record)], None)
  {
    assert [record][..0] == [];
  }

  /**
   * Loading is done record by record: loading `a + b` loads `a`, and, unless
   * a record of `a` raised, goes on with `b`, appending after `a`'s actions.
   */
  lemma {:induction false} LoadAppend(a: seq<Doc>, b: seq<Doc>, fmt: RecordFormat)
    ensures LoadRecords(a + b, fmt) ==
      var la := LoadRecords(a, fmt);
      if la.failure.Some? then la
      else Loaded(la.acts + LoadRecords(b, fmt).acts, LoadRecords(b, fmt).failure)
  {
    if b == [] {
      assert a + b == a;
    } else {
      var n := |b| - 1;
      var ab := a + b;
      assert ab != [] && ab[..|ab| - 1] == a + b[..n] && ab[|ab| - 1] == b[n];
      LoadAppend(a, b[..n], fmt);
      var la, lb := LoadRecords(a, fmt), LoadRecords(b[..n], fmt);
      if la.failure.None? && lb.failure.None? {
        match Classify(b[n])
        case Failure(_) =>
        case Success(None) =>
        case Success(Some(k)) =>
          var x := Restore(fmt, k, b[n]);
          assert (la.acts + lb.acts) + [x] == la.acts + (lb.acts + [x]);
      }
    }
  }

  /** A record with an unknown tag leaves no trace: removing it changes nothing. */
  lemma LoadSkipsUnknown(a: seq<Doc>, u: Doc, b: seq<Doc>, fmt: RecordFormat)
    requires Classify(u) == Success(None)
    ensures LoadRecords(a + [u] + b, fmt) == LoadRecords(a + b, fmt)
  {
    assert (a + [u])[..|a|] == a && (a + [u])[|a|] == u;
    assert LoadRecords(a + [u], fmt) == LoadRecords(a, fmt);
    LoadAppend(a + [u], b, fmt);
    LoadAppend(a, b, fmt);
  }

  /**
   * The first record that raises ends the load with its exception; the
   * actions of the records before it have been appended, and the records
   * after it are never looked at.
   */
  lemma LoadStopsAtBroken(records: seq<Doc>, j: nat, fmt: RecordFormat)
    requires j < |records| && Classify(records[j]).Failure?
    requires forall i :: 0 <= i < j ==> Classify(records[i]).Success?
    ensures LoadRecords(records, fmt) ==
      Loaded(LoadRecords(records[..j], fmt).acts, Some(Classify(records[j]).error))
  {
    LoadFailure(records[..j], fmt);
    LoadStep(records, j, fmt);
    assert records[..j + 1] + records[j + 1..] == records;
    LoadAppend(records[..j + 1], records[j + 1..], fmt);
  }

  /** Loading the records a macro was saved as gives back that macro, without error. */
  lemma {:induction false} LoadSaved(acts: seq<Action>, fmt: RecordFormat)
    requires RoundTrips(fmt)
    ensures LoadRecords(SaveRecords(acts, fmt), fmt) == Loaded(acts, None)
  {
    if acts != [] {
      var n := |acts| - 1;
      var records := SaveRecords(acts, fmt);
      assert records[..n] == SaveRecords(acts[..n], fmt) && records[..n + 1] == records;
      LoadSaved(acts[..n], fmt);
      LoadStep(records, n, fmt);
      assert Classify(records[n]) == Success(Some(KindOf(acts[n])));
      assert Restore(fmt, KindOf(acts[n]), SaveRecord(fmt, acts[n])) == acts[n];
      assert acts[..n] + [acts[n]] == acts;
    }
  }

  /**
   * A record layout in which `RoundTrips` holds, given keycode names that
   * identify their keys (`find(name(k)) == k`): the tag, then each key's
   * name, the text, or the delay. So `LoadSaved` applies to some format.
   */
  function KeycodeFormat(name: Keycode -> string, find: string -> Keycode): RecordFormat
  {
    RecordFormat(
      (a: Action) => WritePayload(name, a),
      (d: Doc) => if d.JList? && d.items != [] then ReadKeycodes(find, d.items[1..]) else [],
      (d: Doc) => if d.JList? && |d.items| > 1 && d.items[1].JStr? then d.items[1].s else "",
      (d: Doc) => if d.JList? && |d.items| > 1 && d.items[1].JNum? && d.items[1].n >= 0 then d.items[1].n else 0)
  }

  function WritePayload(name: Keycode -> string, a: Action): seq<Doc>
  {
    match a
    case Down(keys) => WriteKeycodes(name, keys)
    case Up(keys) => WriteKeycodes(name, keys)
    case Tap(keys) => WriteKeycodes(name, keys)
    case Text(text) => [JStr(text)]
    case Delay(ms) => [JNum(ms)]
  }

  function WriteKeycodes(name: Keycode -> string, keys: seq<Keycode>): seq<Doc>
  {
    if keys == [] then [] else [JStr(name(keys[0]))] + WriteKeycodes(name, keys[1..])
  }

  function ReadKeycodes(find: string -> Keycode, items: seq<Doc>): seq<Keycode>
  {
    if items == [] then []
    else [find(if items[0].JStr? then items[0].s else "")] + ReadKeycodes(find, items[1..])
  }

  /** Reading back the names of a key list gives the key list. */
  lemma {:induction false} KeycodesRoundTrip(name: Keycode -> string, find: string -> Keycode, keys: seq<Keycode>)
    requires forall k :: find(name(k)) == k
    ensures ReadKeycodes(find, WriteKeycodes(name, keys)) == keys
  {
    if keys != [] {
      KeycodesRoundTrip(name, find, keys[1..]);
      assert WriteKeycodes(name, keys)[1..] == WriteKeycodes(name, keys[1..]);
    }
  }

  /** With keycodes named one-to-one, the keycode record layout reads back every record it writes. */
  lemma KeycodeFormatRoundTrips(name: Keycode -> string, find: string -> Keycode)
    requires forall k :: find(name(k)) == k
    ensures RoundTrips(KeycodeFormat(name, find))
  {
    var fmt := KeycodeFormat(name, find);
    forall a: Action ensures Restore(fmt, KindOf(a), SaveRecord(fmt, a)) == a {
      var record := SaveRecord(fmt, a);
      assert record.items[1..] == WritePayload(name, a);
      if a.Down? || a.Up? || a.Tap? {
        KeycodesRoundTrip(name, find, a.keys);
      }
    }
  }
}
