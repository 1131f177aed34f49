// The trace state (backend.py, `class State`): the current bindings, the
// trace table (a list of frames, each a map from names to the values seen or
// written while it was the last frame), and the names read but not yet
// written in the last frame. The operations are first given as functions on
// a snapshot of the three fields, then as methods of a class that updates
// the fields in place and is proved to agree with them.

module Trace {
  import opened Values
  import opened Order

  type Frame = map<string, Value>

  /** The name under which displayed output is stored. */
  const DisplayName: string := "Display"

  datatype Snapshot = Snapshot(objects: map<string, Value>, table: seq<Frame>, temps: set<string>)

  /** `table[-1]`; the table of a coherent state is never empty. */
  function Last(t: seq<Frame>): Frame
  {
    if t == [] then map[] else t[|t| - 1]
  }

  /** The table without its last frame. */
  function Front(t: seq<Frame>): seq<Frame>
  {
    if t == [] then [] else t[..|t| - 1]
  }

  /** A frame whose every entry is the current binding of its name. */
  predicate Agrees(f: Frame, objects: map<string, Value>)
  {
    forall k | k in f :: k in objects && f[k] == objects[k]
  }

  /** Every name recorded in the table is bound. */
  predicate Bound(t: seq<Frame>, objects: map<string, Value>)
  {
    forall i | 0 <= i < |t| :: t[i].Keys <= objects.Keys
  }

  /** No frame is empty. */
  predicate Filled(t: seq<Frame>)
  {
    forall i | 0 <= i < |t| :: t[i] != map[]
  }

  /** What holds of every state the class can reach: there is a last frame,
      it agrees with the bindings, every recorded name is bound, and only
      the last frame can be empty. */
  predicate Coherent(s: Snapshot)
  {
    s.table != [] && Agrees(Last(s.table), s.objects) && Bound(s.table, s.objects) && Filled(Front(s.table))
  }

  /** `State()`: no bindings, one empty frame, no temporaries. */
  function Init(): (s: Snapshot)
    ensures Coherent(s)
  {
    Snapshot(map[], [map[]], {})
  }

  /** `new_frame` (backend.py:107-116). When the last frame is not empty it
      is closed and a fresh one opened; the closed frame is first dropped,
      or cut down to its Display entry, when there are exactly as many
      temporaries plus Display as it has entries. */
  function NewFrameState(s: Snapshot): (r: Snapshot)
    ensures |r.table| >= 1 || r == s
  {
    if Last(s.table) == map[] then s
    else
      var kept :=
        if |s.temps + {DisplayName}| == |Last(s.table)| then
          if DisplayName in Last(s.table) then Front(s.table) + [map[DisplayName := DisplayValue(s)]]
          else Front(s.table)
        else s.table;
      Snapshot(s.objects, kept + [map[]], {})
  }

  /** `objects["Display"]` when the last frame has a Display entry; in a
      coherent state the binding exists and equals that entry. */
  function DisplayValue(s: Snapshot): Value
    requires DisplayName in Last(s.table)
  {
    if DisplayName in s.objects then s.objects[DisplayName] else Last(s.table)[DisplayName]
  }

  /** `state[item]` (backend.py:93-97): the name becomes a temporary unless
      the last frame already has it; then the binding is recorded in the
      last frame and returned, or the lookup fails for an unbound name. */
  function ReadState(s: Snapshot, item: string): (r: (Snapshot, Result<Value>))
    ensures r.0.objects == s.objects
  {
    var temps := if item !in Last(s.table) then s.temps + {item} else s.temps;
    if item !in s.objects then (s.(temps := temps), Err(NameError(item)))
    else
      (Snapshot(s.objects, Front(s.table) + [Last(s.table)[item := s.objects[item]]], temps),
       Ok(s.objects[item]))
  }

  /** `state[key] = value` (backend.py:99-105): overwriting a value written
      earlier in the same frame with an unequal one closes the frame first;
      the key is then no longer a temporary, and both the last frame and
      the bindings map it to the value. */
  function WriteState(s: Snapshot, key: string, value: Value): (r: Snapshot)
    ensures key in r.objects && r.objects[key] == value
  {
    var s1 := if key !in s.temps && key in Last(s.table) && !PyEq(Last(s.table)[key], value) then NewFrameState(s) else s;
    Snapshot(s1.objects[key := value], Front(s1.table) + [Last(s1.table)[key := value]], s1.temps - {key})
  }

  /** When a write closes the frame first. */
  predicate Splits(s: Snapshot, key: string, value: Value)
  {
    key !in s.temps && key in Last(s.table) && !PyEq(Last(s.table)[key], value)
  }

  lemma FrontLast(t: seq<Frame>, f: Frame)
    ensures Front(t + [f]) == t && Last(t + [f]) == f
  {
    assert (t + [f])[..|t|] == t;
  }

  lemma Split(t: seq<Frame>)
    requires t != []
    ensures t == Front(t) + [Last(t)]
  {
  }

  lemma BoundSnoc(t: seq<Frame>, f: Frame, objects: map<string, Value>)
    ensures Bound(t + [f], objects) <==> Bound(t, objects) && f.Keys <= objects.Keys
  {
    if Bound(t, objects) && f.Keys <= objects.Keys {
      forall i | 0 <= i < |t + [f]| ensures (t + [f])[i].Keys <= objects.Keys {
        if i < |t| {
          assert (t + [f])[i] == t[i];
        }
      }
    }
    if Bound(t + [f], objects) {
      forall i | 0 <= i < |t| ensures t[i].Keys <= objects.Keys {
        assert (t + [f])[i] == t[i];
      }
      assert (t + [f])[|t|] == f;
    }
  }

  lemma FilledSnoc(t: seq<Frame>, f: Frame)
    ensures Filled(t + [f]) <==> Filled(t) && f != map[]
  {
    if Filled(t + [f]) {
      forall i | 0 <= i < |t| ensures t[i] != map[] {
        assert (t + [f])[i] == t[i];
      }
      assert (t + [f])[|t|] == f;
    }
  }

  lemma BoundGrows(t: seq<Frame>, objects: map<string, Value>, k: string, v: Value)
    requires Bound(t, objects)
    ensures Bound(t, objects[k := v])
  {
  }

  /** Every operation keeps the state coherent. */
  lemma NewFrameCoherent(s: Snapshot)
    requires Coherent(s)
    ensures Coherent(NewFrameState(s))
  {
    if Last(s.table) != map[] {
      var f, l := Front(s.table), Last(s.table);
      Split(s.table);
      BoundSnoc(f, l, s.objects);
      FilledSnoc(f, l);
      var kept;
      if |s.temps + {DisplayName}| != |l| {
        kept := s.table;
        assert Filled(f + [l]);
      } else if DisplayName in l {
        var d := map[DisplayName := DisplayValue(s)];
        kept := f + [d];
        assert DisplayName in d;
        BoundSnoc(f, d, s.objects);
        FilledSnoc(f, d);
      } else {
        kept := f;
      }
      assert Bound(kept, s.objects) && Filled(kept);
      var r := NewFrameState(s);
      assert r.table == kept + [map[]];
      FrontLast(kept, map[]);
      BoundSnoc(kept, map[], s.objects);
    }
  }

  lemma ReadCoherent(s: Snapshot, item: string)
    requires Coherent(s)
    ensures Coherent(ReadState(s, item).0)
  {
    if item in s.objects {
      var f, l := Front(s.table), Last(s.table);
      Split(s.table);
      BoundSnoc(f, l, s.objects);
      var l2 := l[item := s.objects[item]];
      FrontLast(f, l2);
      BoundSnoc(f, l2, s.objects);
    }
  }

  lemma WriteCoherent(s: Snapshot, key: string, value: Value)
    requires Coherent(s)
    ensures Coherent(WriteState(s, key, value))
  {
    var s1 := if Splits(s, key, value) then NewFrameState(s) else s;
    if Splits(s, key, value) {
      NewFrameCoherent(s);
    }
    var f, l := Front(s1.table), Last(s1.table);
    Split(s1.table);
    BoundSnoc(f, l, s1.objects);
    var o2 := s1.objects[key := value];
    var l2 := l[key := value];
    FrontLast(f, l2);
    BoundGrows(f, s1.objects, key, value);
    BoundSnoc(f, l2, o2);
  }

  /** A write as a step on the state after the optional split. */
  lemma WriteAfter(s0: Snapshot, s1: Snapshot, key: string, value: Value)
    requires Coherent(s0) && s1 == if Splits(s0, key, value) then NewFrameState(s0) else s0
    ensures Coherent(s1) && s1.table == Front(s1.table) + [Last(s1.table)]
    ensures Coherent(WriteState(s0, key, value))
    ensures WriteState(s0, key, value) ==
              Snapshot(s1.objects[key := value], Front(s1.table) + [Last(s1.table)[key := value]], s1.temps - {key})
  {
    WriteCoherent(s0, key, value);
    if Splits(s0, key, value) {
      NewFrameCoherent(s0);
    }
    Split(s1.table);
  }

  /** A read returns the binding, or fails exactly for an unbound name; it
      changes no binding and no closed frame, records the binding in the last
      frame, and makes the name a temporary exactly when the last frame did
      not have it before. */
  lemma ReadSpec(s: Snapshot, item: string)
    requires Coherent(s)
    ensures ReadState(s, item).1.Ok? <==> item in s.objects
    ensures item in s.objects ==> ReadState(s, item).1 == Ok(s.objects[item])
    ensures ReadState(s, item).0.objects == s.objects
    ensures |ReadState(s, item).0.table| == |s.table|
    ensures Front(ReadState(s, item).0.table) == Front(s.table)
    ensures item in s.objects ==> Last(ReadState(s, item).0.table) == Last(s.table)[item := s.objects[item]]
    ensures item !in s.objects ==> ReadState(s, item).0.table == s.table
    ensures ReadState(s, item).0.temps == if item in Last(s.table) then s.temps else s.temps + {item}
  {
    if item in s.objects {
      FrontLast(Front(s.table), Last(s.table)[item := s.objects[item]]);
    }
  }

  /** Reading a name a second time changes nothing more. */
  lemma ReadTwice(s: Snapshot, item: string)
    requires Coherent(s)
    ensures ReadState(ReadState(s, item).0, item) == ReadState(s, item)
  {
    var s1 := ReadState(s, item).0;
    ReadSpec(s, item);
    ReadSpec(s1, item);
    if item in s.objects {
      assert item in Last(s1.table);
      var t := Front(s1.table) + [Last(s1.table)[item := s1.objects[item]]];
      assert Last(s1.table)[item := s1.objects[item]] == Last(s1.table);
      assert s1.table == Front(s1.table) + [Last(s1.table)];
    }
  }

  /** After a write the name is bound to the value, the last frame maps it to
      the value and it is no longer a temporary; the frame was closed first
      exactly when `Splits` holds. */
  lemma WriteSpec(s: Snapshot, key: string, value: Value)
    ensures WriteState(s, key, value).objects == s.objects[key := value]
    ensures Last(WriteState(s, key, value).table) == (if Splits(s, key, value) then Last(NewFrameState(s).table) else Last(s.table))[key := value]
    ensures key !in WriteState(s, key, value).temps
    ensures Front(WriteState(s, key, value).table) == Front((if Splits(s, key, value) then NewFrameState(s) else s).table)
    ensures !Splits(s, key, value) ==> WriteState(s, key, value).temps == s.temps - {key}
  {
    var s1 := if Splits(s, key, value) then NewFrameState(s) else s;
    FrontLast(Front(s1.table), Last(s1.table)[key := value]);
  }

  /** Closing a frame: nothing happens while the last frame is empty;
      otherwise the bindings are untouched, the new last frame and the
      temporaries are empty, and the table grows by one frame, or by none
      when the closed frame is dropped. */
  lemma NewFrameSpec(s: Snapshot)
    ensures Last(s.table) == map[] ==> NewFrameState(s) == s
    ensures NewFrameState(s).objects == s.objects
    ensures Last(s.table) != map[] ==>
              Last(NewFrameState(s).table) == map[] && NewFrameState(s).temps == {} &&
              |NewFrameState(s).table| ==
                (if |s.temps + {DisplayName}| == |Last(s.table)| && DisplayName !in Last(s.table) then |s.table| else |s.table| + 1)
    ensures |s.table| <= |NewFrameState(s).table| <= |s.table| + 1
  {
    if Last(s.table) != map[] {
      var r := NewFrameState(s);
      assert r.table == (r.table[..|r.table| - 1]) + [map[]];
      FrontLast(r.table[..|r.table| - 1], map[]);
    }
  }

  /** The trace table only grows at its end: closing a frame leaves every
      earlier closed frame as it was, and a closed frame holding Display
      stays in the table with the text it showed. */
  lemma NewFrameAppendOnly(s: Snapshot)
    requires Coherent(s)
    ensures Front(s.table) <= NewFrameState(s).table
    ensures DisplayName in Last(s.table) ==>
              |NewFrameState(s).table| == |s.table| + 1 && DisplayName in NewFrameState(s).table[|s.table| - 1] &&
              NewFrameState(s).table[|s.table| - 1][DisplayName] == Last(s.table)[DisplayName]
  {
  }

  /** Closing a frame that is not collapsed keeps it, unchanged, as the
      last closed frame. */
  lemma NewFrameKeeps(s: Snapshot)
    requires Coherent(s) && Last(s.table) != map[]
    requires |s.temps + {DisplayName}| != |Last(s.table)|
    ensures NewFrameState(s).table == s.table + [map[]]
  {
  }

  /** The size test in action: a frame whose only entry is one written
      variable other than Display is discarded when it is closed. */
  lemma LoneWriteDropped(s: Snapshot, x: string, v: Value)
    requires Coherent(s) && Last(s.table) == map[x := v] && x != DisplayName && s.temps == {}
    ensures NewFrameState(s).table == Front(s.table) + [map[]]
  {
    assert s.temps + {DisplayName} == {DisplayName};
  }

  /** A frame in which one name was only read is kept, although a frame
      with one name only written would be dropped. */
  lemma LoneReadKept(s: Snapshot, x: string, v: Value)
    requires Coherent(s) && Last(s.table) == map[x := v] && x != DisplayName && s.temps == {x}
    ensures NewFrameState(s).table == s.table + [map[]]
  {
    assert s.temps + {DisplayName} == {x, DisplayName};
    assert |{x, DisplayName}| == 2;
    assert |Last(s.table)| == 1;
  }

  /** A frame holding a read name and Display is cut down to Display. */
  lemma ReadAndDisplayCut(s: Snapshot, x: string, v: Value, d: Value)
    requires Coherent(s) && x != DisplayName && Last(s.table) == map[x := v, DisplayName := d] && s.temps == {x}
    ensures NewFrameState(s).table == Front(s.table) + [map[DisplayName := d], map[]]
  {
    assert s.temps + {DisplayName} == {x, DisplayName};
    assert |Last(s.table)| == |{x, DisplayName}| == 2 by {
      assert Last(s.table).Keys == {x, DisplayName};
    }
  }

  /** `SET x TO x + 1`: writing a name that the frame so far only read does
      not split the frame. */
  lemma WriteAfterReadStays(s: Snapshot, x: string, v: Value)
    requires Coherent(s) && x in s.objects && x !in Last(s.table)
    ensures var s1 := ReadState(s, x).0;
            !Splits(s1, x, v) &&
            WriteState(s1, x, v).table == Front(s.table) + [Last(s.table)[x := v]]
  {
    var s1 := ReadState(s, x).0;
    ReadSpec(s, x);
    WriteSpec(s1, x, v);
    assert Last(s.table)[x := s.objects[x]][x := v] == Last(s.table)[x := v];
    FrontLast(Front(s.table), Last(s.table)[x := v]);
  }

  /** Writing an equal value again never splits the frame. */
  lemma WriteEqualStays(s: Snapshot, x: string, v: Value, w: Value)
    requires Coherent(s) && x in Last(s.table) && Last(s.table)[x] == v && PyEq(v, w)
    ensures !Splits(s, x, w)
    ensures |WriteState(s, x, w).table| == |s.table|
  {
  }

  /** `SET x TO 1` then `SET x TO 2` in a fresh frame: the second write closes
      the frame, the closed frame (one written name) is dropped, and the
      table never shows x = 1. */
  lemma OverwriteLosesRow(s: Snapshot, x: string, v1: Value, v2: Value)
    requires Coherent(s) && Last(s.table) == map[] && s.temps == {} && x != DisplayName && !PyEq(v1, v2)
    ensures WriteState(WriteState(s, x, v1), x, v2).table == Front(s.table) + [map[x := v2]]
  {
    var s1 := WriteState(s, x, v1);
    WriteSpec(s, x, v1);
    assert Last(s1.table) == map[x := v1];
    assert s1.temps == {};
    assert Splits(s1, x, v2);
    LoneWriteDropped(s1, x, v1);
    var s2 := NewFrameState(s1);
    FrontLast(Front(s.table), map[x := v1]);
    assert s2.table == Front(s.table) + [map[]];
    FrontLast(Front(s.table), map[]);
    WriteSpec(s1, x, v2);
    FrontLast(Front(s.table), map[x := v2]);
  }

  // ---------------------------------------------------------------------
  // `gen_trace_table` (backend.py:128-131)

  /** The column headers: every bound name but Display in sorted order, and
      Display last. */
  ghost function Headers(objects: map<string, Value>): (hs: seq<string>)
    ensures |hs| >= 1 && hs[|hs| - 1] == DisplayName
  {
    SortedNames(objects.Keys - {DisplayName}) + [DisplayName]
  }

  /** One row: the frame's value under each header, or None. */
  function Row(frame: Frame, headers: seq<string>): (row: seq<Option<Value>>)
    ensures |row| == |headers|
  {
    seq(|headers|, j requires 0 <= j < |headers| => if headers[j] in frame then Some(frame[headers[j]]) else None)
  }

  ghost function GenTraceTable(s: Snapshot): (r: (seq<string>, seq<seq<Option<Value>>>))
    ensures |r.1| == |s.table|
  {
    var headers := Headers(s.objects);
    (headers, seq(|s.table|, i requires 0 <= i < |s.table| => Row(s.table[i], headers)))
  }

  /** The headers name each bound variable, and Display, exactly once; all
      but the last are in increasing order. */
  lemma HeadersSpec(objects: map<string, Value>)
    ensures forall x :: x in Headers(objects) <==> (x in objects || x == DisplayName)
    ensures Increasing(Headers(objects)[..|Headers(objects)| - 1])
    ensures forall i, j | 0 <= i < j < |Headers(objects)| :: Headers(objects)[i] != Headers(objects)[j]
  {
    var names := SortedNames(objects.Keys - {DisplayName});
    SortedNamesSpec(objects.Keys - {DisplayName});
    var hs := Headers(objects);
    assert hs[..|hs| - 1] == names;
    forall i, j | 0 <= i < j < |hs| ensures hs[i] != hs[j] {
      if j < |hs| - 1 {
        IncreasingDistinct(names, i, j);
      } else {
        assert names[i] in names;
      }
    }
  }

  /** Reads a row back as a frame. */
  function FrameOfRow(headers: seq<string>, row: seq<Option<Value>>): Frame
    requires |headers| == |row|
  {
    if headers == [] then map[]
    else
      var f := FrameOfRow(headers[1..], row[1..]);
      if row[0].Some? then f[headers[0] := row[0].value] else f
  }

  /** A row keeps exactly the frame's entries under the given headers. */
  lemma {:induction false} FrameOfRowRestricts(frame: Frame, headers: seq<string>)
    ensures FrameOfRow(headers, Row(frame, headers)) == map k | k in frame && k in headers :: frame[k]
  {
    if headers != [] {
      assert Row(frame, headers)[1..] == Row(frame, headers[1..]);
      FrameOfRowRestricts(frame, headers[1..]);
    }
  }

  /** No information is lost: each frame of a coherent state can be read
      back from its row of the trace table. */
  lemma RowsRecoverFrames(s: Snapshot, i: nat)
    requires Coherent(s) && i < |s.table|
    ensures FrameOfRow(GenTraceTable(s).0, GenTraceTable(s).1[i]) == s.table[i]
  {
    var headers := Headers(s.objects);
    HeadersSpec(s.objects);
    FrameOfRowRestricts(s.table[i], headers);
  }

  // ---------------------------------------------------------------------
  // The class

  class TraceState {
    var objects: map<string, Value>
    var table: seq<Frame>
    var temps: set<string>

    function Snap(): Snapshot
      reads this
    {
      Snapshot(objects, table, temps)
    }

    ghost predicate Valid()
      reads this
    {
      Coherent(Snap())
    }

    constructor ()
      ensures Valid() && Snap() == Init()
    {
      objects := map[];
      table := [map[]];
      temps := {};
    }

    method NewFrame()
      requires Valid()
      modifies this
      ensures Snap() == NewFrameState(old(Snap()))
      ensures Valid()
    {
      NewFrameCoherent(Snap());
      if table[|table| - 1] != map[] {
        if |temps + {DisplayName}| == |table[|table| - 1]| {
          if DisplayName in table[|table| - 1] {
            table := table[..|table| - 1];
            table := table + [map[DisplayName := objects[DisplayName]]];
          } else {
            table := table[..|table| - 1];
          }
        }
        table := table + [map[]];
        temps := {};
      }
    }

    method GetItem(item: string) returns (r: Result<Value>)
      requires Valid()
      modifies this
      ensures (Snap(), r) == ReadState(old(Snap()), item)
      ensures Valid()
    {
      ReadCoherent(Snap(), item);
      if item !in table[|table| - 1] {
        temps := temps + {item};
      }
      if item !in objects {
        return Err(NameError(item));
      }
      table := table[..|table| - 1] + [table[|table| - 1][item := objects[item]]];
      return Ok(objects[item]);
    }

    method SetItem(key: string, value: Value)
      requires Valid()
      modifies this
      ensures Snap() == WriteState(old(Snap()), key, value)
      ensures Valid()
    {
      ghost var s0 := Snap();
      if key !in temps && key in table[|table| - 1] && !PyEq(table[|table| - 1][key], value) {
        NewFrame();
      }
      ghost var s1 := Snap();
      WriteAfter(s0, s1, key, value);
      if key in temps {
        temps := temps - {key};
      }
      table := table[..|table| - 1] + [table[|table| - 1][key := value]];
      objects := objects[key := value];
    }

    ghost function TraceTable(): (r: (seq<string>, seq<seq<Option<Value>>>))
      reads this
      ensures |r.1| == |table|
    {
      GenTraceTable(Snap())
    }
  }
}
