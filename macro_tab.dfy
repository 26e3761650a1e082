/**
 * The macro editor tab: an ordered list of macro lines, each holding one
 * action, with the operations that append, remove, reorder and clear lines,
 * and the file save and load built on them. Every `changed` signal the tab
 * emits is counted in `changes`.
 */
module Macro {
  import opened Wrappers
  import opened Actions
  import opened Documents
  import opened Persistence

  /** One row of the editor. Rows are told apart by identity, not by the action they hold. */
  class MacroLine {
    const act: Action

    constructor (act: Action)
      ensures this.act == act
    {
      this.act := act;
    }
  }

  /** No line occurs twice. */
  predicate Distinct(s: seq<MacroLine>)
  {
    forall i, j :: 0 <= i < j < |s| ==> s[i] != s[j]
  }

  /** `list.index`: the first position holding `x`, or `|s|` where Python raises ValueError. */
  function IndexOf<T(==)>(s: seq<T>, x: T): (r: nat)
    ensures r <= |s|
    ensures r == |s| <==> x !in s
    ensures r < |s| ==> s[r] == x
    ensures forall j :: 0 <= j < r ==> s[j] != x
  {
    if s == [] then 0
    else if s[0] == x then 0
    else 1 + IndexOf(s[1..], x)
  }

  /** `actions()`: the action of every line, in line order. */
  function ActionsOf(lines: seq<MacroLine>): (r: seq<Action>)
    ensures |r| == |lines|
    ensures forall i :: 0 <= i < |lines| ==> r[i] == lines[i].act
  {
    if lines == [] then [] else ActionsOf(lines[..|lines| - 1]) + [lines[|lines| - 1].act]
  }

  /** `lines[i], lines[j] = lines[j], lines[i]`. */
  function Swapped(s: seq<MacroLine>, i: nat, j: nat): (r: seq<MacroLine>)
    requires i < |s| && j < |s|
    ensures |r| == |s| && r[i] == s[j] && r[j] == s[i]
    ensures forall p :: 0 <= p < |s| && p != i && p != j ==> r[p] == s[p]
  {
    s[i := s[j]][j := s[i]]
  }

  /** Exchanging two lines keeps the same lines, each as often. */
  lemma SwappedPermutes(s: seq<MacroLine>, i: nat, j: nat)
    requires i < |s| && j < |s|
    ensures multiset(Swapped(s, i, j)) == multiset(s)
  {
  }

  /** `lines.remove(obj)`: drops the first occurrence of `obj`; ValueError if there is none. */
  function Removed(s: seq<MacroLine>, obj: MacroLine): (r: Result<seq<MacroLine>, Error>)
    ensures r.Failure? <==> obj !in s
    ensures r.Failure? ==> r.error == ValueError
    ensures r.Success? ==> |r.value| == |s| - 1
  {
    var k := IndexOf(s, obj);
    if k == |s| then Failure(ValueError) else Success(s[..k] + s[k + 1..])
  }

  /**
   * The effect of `on_move(obj, offset)` on the line list: nothing for a zero
   * offset or a target outside the list, ValueError for a line not in the
   * list, and otherwise the line and the one at the target change places.
   */
  function Moved(s: seq<MacroLine>, obj: MacroLine, offset: int): (r: Result<seq<MacroLine>, Error>)
    ensures r.Failure? <==> offset != 0 && obj !in s
    ensures r.Failure? ==> r.error == ValueError
    ensures r.Success? ==> multiset(r.value) == multiset(s)
  {
    if offset == 0 then Success(s)
    else
      var index := IndexOf(s, obj);
      if index == |s| then Failure(ValueError)
      else if index + offset < 0 || index + offset >= |s| then Success(s)
      else
        var other := IndexOf(s, s[index + offset]);
        SwappedPermutes(s, index, other);
        Success(Swapped(s, index, other))
  }

  /** Whether `on_move(obj, offset)` swaps two lines (and emits `changed`). */
  predicate MoveSwaps(s: seq<MacroLine>, obj: MacroLine, offset: int)
  {
    offset != 0 && obj in s && 0 <= IndexOf(s, obj) + offset < |s|
  }

  /** Without a line, in order: a reference definition of removal from a list of distinct lines. */
  function Without(s: seq<MacroLine>, obj: MacroLine): seq<MacroLine>
  {
    if s == [] then []
    else (if s[0] == obj then [] else [s[0]]) + Without(s[1..], obj)
  }

  /** In a list of distinct lines, the line at position `p` is found at `p`. */
  lemma IndexOfDistinct(s: seq<MacroLine>, p: nat)
    requires Distinct(s) && p < |s|
    ensures IndexOf(s, s[p]) == p
  {
  }

  /** Removing a line keeps the others in their order, which is exactly filtering it out. */
  lemma {:induction false} RemovedIsWithout(s: seq<MacroLine>, obj: MacroLine)
    requires Distinct(s) && obj in s
    ensures Removed(s, obj) == Success(Without(s, obj))
  {
    if s[0] == obj {
      assert obj !in s[1..] by {
        forall j | 0 <= j < |s[1..]| ensures s[1..][j] != obj {
          assert s[1..][j] == s[j + 1];
        }
      }
      WithoutAbsent(s[1..], obj);
    } else {
      assert Distinct(s[1..]) by {
        forall i, j | 0 <= i < j < |s[1..]| ensures s[1..][i] != s[1..][j] {
          assert s[1..][i] == s[i + 1] && s[1..][j] == s[j + 1];
        }
      }
      RemovedIsWithout(s[1..], obj);
      var t := s[1..];
      var k := IndexOf(t, obj);
      assert IndexOf(s, obj) == k + 1;
      assert Removed(t, obj) == Success(t[..k] + t[k + 1..]);
      assert Without(s, obj) == [s[0]] + Without(t, obj);
      assert s[..k + 1] + s[k + 2..] == [s[0]] + (t[..k] + t[k + 1..]);
    }
  }

  /** Filtering out a line that is not there changes nothing. */
  lemma {:induction false} WithoutAbsent(s: seq<MacroLine>, obj: MacroLine)
    requires obj !in s
    ensures Without(s, obj) == s
  {
    if s != [] {
      assert obj !in s[1..];
      WithoutAbsent(s[1..], obj);
    }
  }

  /** Removal is the inverse of appending a new line. */
  lemma RemoveAfterAppend(s: seq<MacroLine>, line: MacroLine)
    requires line !in s
    ensures Removed(s + [line], line) == Success(s)
  {
    var t := s + [line];
    assert IndexOf(t, line) == |s|;
    assert Removed(t, line) == Success(t[..|s|] + t[|s| + 1..]);
    assert t[..|s|] == s && t[|s| + 1..] == [];
    assert t[..|s|] + t[|s| + 1..] == s;
  }

  /** Removing one line from distinct lines leaves distinct lines. */
  lemma RemovedDistinct(s: seq<MacroLine>, obj: MacroLine)
    requires Distinct(s) && obj in s
    ensures Removed(s, obj).Success? && Distinct(Removed(s, obj).value)
  {
    var k := IndexOf(s, obj);
    var r := Removed(s, obj).value;
    forall i, j | 0 <= i < j < |r| ensures r[i] != r[j] {
      var i', j' := if i < k then i else i + 1, if j < k then j else j + 1;
      assert r[i] == s[i'] && r[j] == s[j'];
    }
  }

  /** A zero offset, or a target outside the list, leaves the lines as they are. */
  lemma MovedNoOp(s: seq<MacroLine>, obj: MacroLine, offset: int)
    requires obj in s || offset == 0
    requires !MoveSwaps(s, obj, offset)
    ensures Moved(s, obj, offset) == Success(s)
  {
  }

  /** Exchanging two of a list of distinct lines leaves them distinct. */
  lemma SwappedDistinct(s: seq<MacroLine>, i: nat, j: nat)
    requires Distinct(s) && i < |s| && j < |s|
    ensures Distinct(Swapped(s, i, j))
  {
    var r := Swapped(s, i, j);
    forall p, q | 0 <= p < q < |r| ensures r[p] != r[q] {
      var p' := if p == i then j else if p == j then i else p;
      var q' := if q == i then j else if q == j then i else q;
      assert r[p] == s[p'] && r[q] == s[q'];
    }
  }

  /**
   * Otherwise exactly the line and the line `offset` places away change
   * places; every other position and the length stay (see `Swapped`).
   */
  lemma MovedSwaps(s: seq<MacroLine>, obj: MacroLine, offset: int)
    requires Distinct(s) && MoveSwaps(s, obj, offset)
    ensures var i := IndexOf(s, obj);
      && Moved(s, obj, offset) == Success(Swapped(s, i, i + offset))
      && Distinct(Swapped(s, i, i + offset))
  {
    var i := IndexOf(s, obj);
    assert i < |s| && 0 <= i + offset < |s|;
    IndexOfDistinct(s, i + offset);
    SwappedDistinct(s, i, i + offset);
  }

  /** Moving a line by `offset` and then back by `-offset` restores the original order. */
  lemma MoveBack(s: seq<MacroLine>, obj: MacroLine, offset: int)
    requires Distinct(s) && MoveSwaps(s, obj, offset)
    ensures Moved(s, obj, offset).Success?
    ensures MoveSwaps(Moved(s, obj, offset).value, obj, -offset)
    ensures Moved(Moved(s, obj, offset).value, obj, -offset) == Success(s)
  {
    var i := IndexOf(s, obj);
    var j := i + offset;
    MovedSwaps(s, obj, offset);
    var t := Swapped(s, i, j);
    IndexOfDistinct(t, j);
    IndexOfDistinct(t, i);
    assert t[j..][..0] == [];
    assert Swapped(t, j, i) == s;
  }

  class MacroTab {
    /** The rows of the editor, in display and execution order. */
    var lines: seq<MacroLine>
    /** How many times the `changed` signal has been emitted. */
    var changes: nat

    ghost predicate Valid()
      reads this
    {
      Distinct(lines)
    }

    constructor ()
      ensures Valid() && lines == [] && changes == 0
    {
      lines := [];
      changes := 0;
    }

    /** `actions()`. */
    function Actions(): (r: seq<Action>)
      reads this
      ensures |r| == |lines|
      ensures forall i :: 0 <= i < |lines| ==> r[i] == lines[i].act
    {
      ActionsOf(lines)
    }

    /** `on_save_file`: the document written to the macro file. */
    function OnSaveFile(fmt: RecordFormat): (d: Doc)
      reads this
      ensures d.JList? && |d.items| == 1
      ensures d.items[0] == JList(SaveRecords(Actions(), fmt))
      ensures |d.items[0].items| == |lines|
      ensures forall i :: 0 <= i < |lines| ==> d.items[0].items[i] == SaveRecord(fmt, lines[i].act)
    {
      SaveDocument(Actions(), fmt)
    }

    /** `add_action`: appends a new line holding `act` and emits `changed` once. */
    method AddAction(act: Action)
      requires Valid()
      modifies this
      ensures Valid()
      ensures |lines| == |old(lines)| + 1 && lines[..|old(lines)|] == old(lines)
      ensures fresh(lines[|lines| - 1]) && lines[|lines| - 1].act == act
      ensures Actions() == old(Actions()) + [act]
      ensures changes == old(changes) + 1
    {
      var line := new MacroLine(act);
      lines := lines + [line];
      changes := changes + 1;
      assert lines[..|old(lines)|] == old(lines);
    }

    /** `on_tap_enter`: appends a tap of the Enter key, resolved by the keycode table. */
    method OnTapEnter(enter: Keycode)
      requires Valid()
      modifies this
      ensures Valid()
      ensures |lines| == |old(lines)| + 1 && lines[..|old(lines)|] == old(lines)
      ensures fresh(lines[|lines| - 1])
      ensures Actions() == old(Actions()) + [Tap([enter])]
      ensures changes == old(changes) + 1
    {
      AddAction(Tap([enter]));
    }

    /** `on_change`: an edit inside a line is passed on as one `changed` signal. */
    method OnChange()
      modifies this
      ensures lines == old(lines) && changes == old(changes) + 1
    {
      changes := changes + 1;
    }

    /**
     * `on_remove`: removes the line and emits `changed` once; a line that is
     * not in the list raises ValueError, with nothing changed or emitted.
     */
    method OnRemove(obj: MacroLine) returns (r: Outcome<Error>)
      requires Valid()
      modifies this
      ensures Valid()
      ensures obj !in old(lines) ==>
        r == Fail(ValueError) && lines == old(lines) && changes == old(changes)
      ensures obj in old(lines) ==>
        && r == Pass
        && Removed(old(lines), obj) == Success(lines)
        && lines == Without(old(lines), obj)
        && obj !in lines
        && changes == old(changes) + 1
    {
      var removed := Removed(lines, obj);
      if removed.Failure? {
        return Fail(removed.error);
      }
      RemovedDistinct(lines, obj);
      RemovedIsWithout(lines, obj);
      lines := removed.value;
      changes := changes + 1;
      r := Pass;
    }

    /**
     * `clear`: removes the lines front to back, one `changed` per line; the
     * list ends empty, and an empty list is left alone with nothing emitted.
     */
    method Clear()
      requires Valid()
      modifies this
      ensures Valid() && lines == []
      ensures changes == old(changes) + |old(lines)|
    {
      var snapshot := lines;
      for i := 0 to |snapshot|
        invariant Valid()
        invariant lines == snapshot[i..]
        invariant changes == old(changes) + i
      {
        assert lines[0] == snapshot[i] && IndexOf(lines, lines[0]) == 0;
        var _ := OnRemove(snapshot[i]);
        assert lines == snapshot[i + 1..];
      }
    }

    /**
     * `on_move`: with a non-zero offset and a target inside the list, the
     * line and the line at the target change places and `changed` is emitted
     * once; otherwise nothing changes and nothing is emitted. A line not in
     * the list raises ValueError, unless the offset is zero.
     */
    method OnMove(obj: MacroLine, offset: int) returns (r: Outcome<Error>)
      requires Valid()
      modifies this
      ensures Valid()
      ensures r.Fail? <==> offset != 0 && obj !in old(lines)
      ensures r.Fail? ==> r.error == ValueError && lines == old(lines)
      ensures r.Pass? ==> Moved(old(lines), obj, offset) == Success(lines)
      ensures changes == old(changes) + (if MoveSwaps(old(lines), obj, offset) then 1 else 0)
    {
      if offset == 0 {
        return Pass;
      }
      var index := IndexOf(lines, obj);
      if index == |lines| {
        return Fail(ValueError);
      }
      if index + offset < 0 || index + offset >= |lines| {
        return Pass;
      }
      var other := IndexOf(lines, lines[index + offset]);
      MovedSwaps(lines, obj, offset);
      lines := lines[index := lines[other]][other := lines[index]];
      changes := changes + 1;
      r := Pass;
    }

    /**
     * `on_load_file`: takes element 0 of the document; if that raises, the
     * exception leaves the macro untouched; if it is not a list, nothing
     * happens. Otherwise the macro is replaced by the records' actions.
     */
    method OnLoadFile(doc: Doc, fmt: RecordFormat) returns (r: Outcome<Error>)
      requires Valid()
      modifies this
      ensures Valid()
      ensures First(doc).Failure? ==>
        r == Fail(First(doc).error) && lines == old(lines) && changes == old(changes)
      ensures First(doc).Success? && !First(doc).value.JList? ==>
        r == Pass && lines == old(lines) && changes == old(changes)
      ensures First(doc).Success? && First(doc).value.JList? ==>
        var loaded := LoadRecords(First(doc).value.items, fmt);
        && Actions() == loaded.acts
        && (forall l :: l in lines ==> fresh(l))
        && r == (if loaded.failure.Some? then Fail(loaded.failure.value) else Pass)
        && changes == old(changes) + |old(lines)| + |loaded.acts|
    {
      var first := First(doc);
      if first.Failure? {
        return Fail(first.error);
      }
      if !first.value.JList? {
        return Pass;
      }
      r := Replace(first.value.items, fmt);
    }

    /**
     * The body of `on_load_file` once the record list is in hand: clear the
     * macro, then restore and append each record with a known tag, skip each
     * record with an unknown one, and stop at a record that raises, keeping
     * the lines appended so far.
     */
    method Replace(records: seq<Doc>, fmt: RecordFormat) returns (r: Outcome<Error>)
      requires Valid()
      modifies this
      ensures Valid()
      ensures forall l :: l in lines ==> fresh(l)
      ensures var loaded := LoadRecords(records, fmt);
        && Actions() == loaded.acts
        && r == (if loaded.failure.Some? then Fail(loaded.failure.value) else Pass)
        && changes == old(changes) + |old(lines)| + |loaded.acts|
    {
      Clear();
      for i := 0 to |records|
        invariant Valid()
        invariant LoadRecords(records[..i], fmt) == Loaded(Actions(), None)
        invariant changes == old(changes) + |old(lines)| + |lines|
        invariant forall l :: l in lines ==> fresh(l)
      {
        LoadStep(records, i, fmt);
        var known := Classify(records[i]);
        if known.Failure? {
          assert records[..i + 1] + records[i + 1..] == records;
          LoadAppend(records[..i + 1], records[i + 1..], fmt);
          return Fail(known.error);
        }
        if known.value.Some? {
          ghost var prev := lines;
          AddAction(Restore(fmt, known.value.value, records[i]));
          assert lines == prev + [lines[|lines| - 1]];
        }
      }
      assert records[..|records|] == records;
      r := Pass;
    }
  }
}
