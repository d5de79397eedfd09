/** The flattening of the sections into one sequence of entries: each section
    gives its header followed by its rows, sections in input order. */
module Flattener {
  import opened Entries

  /** The rows of one section, each wrapped as a row entry. */
  function RowEntries<L, T>(rows: seq<T>): seq<Entry<L, T>> {
    seq(|rows|, k requires 0 <= k < |rows| => Row(rows[k]))
  }

  /** What one section contributes to the flat sequence. */
  function Block<L, T>(s: Section<L, T>): seq<Entry<L, T>> {
    [Header(s)] + RowEntries(s.rows)
  }

  /** The number of rows over all sections. */
  function TotalRows<L, T>(sections: seq<Section<L, T>>): nat {
    if sections == [] then 0 else |sections[0].rows| + TotalRows(sections[1..])
  }

  /** The flat data of the list (`sections.flatMap`). Its length is one entry per
      section plus one per row; zero sections give the empty sequence. */
  function Flatten<L, T>(sections: seq<Section<L, T>>): (data: seq<Entry<L, T>>)
    ensures |data| == |sections| + TotalRows(sections)
  {
    if sections == [] then [] else Block(sections[0]) + Flatten(sections[1..])
  }

  /** Where the header of section `i` lands: after one header and all the rows
      of every earlier section. */
  function HeaderPos<L, T>(sections: seq<Section<L, T>>, i: nat): nat
    requires i <= |sections|
  {
    i + TotalRows(sections[..i])
  }

  lemma {:induction false} FlattenAppend<L, T>(a: seq<Section<L, T>>, b: seq<Section<L, T>>)
    ensures Flatten(a + b) == Flatten(a) + Flatten(b)
  {
    if a == [] {
      assert a + b == b;
    } else {
      calc {
        Flatten(a + b);
      == { assert (a + b)[0] == a[0] && (a + b)[1..] == a[1..] + b; }
        Block(a[0]) + Flatten(a[1..] + b);
      == { FlattenAppend(a[1..], b); }
        Block(a[0]) + (Flatten(a[1..]) + Flatten(b));
      }
    }
  }

  lemma TotalRowsAppend<L, T>(a: seq<Section<L, T>>, b: seq<Section<L, T>>)
    ensures TotalRows(a + b) == TotalRows(a) + TotalRows(b)
  {
    FlattenAppend(a, b);
  }

  /** Consecutive headers are separated by exactly the rows of the earlier
      section; the first header is at 0 and the positions end at the length. */
  lemma HeaderPosStep<L, T>(sections: seq<Section<L, T>>, i: nat)
    requires i < |sections|
    ensures HeaderPos(sections, 0) == 0
    ensures HeaderPos(sections, i + 1) == HeaderPos(sections, i) + 1 + |sections[i].rows|
    ensures HeaderPos(sections, |sections|) == |Flatten(sections)|
  {
    assert sections[..i + 1] == sections[..i] + [sections[i]];
    TotalRowsAppend(sections[..i], [sections[i]]);
    assert [sections[i]][1..] == [];
    assert sections[..|sections|] == sections;
  }

  /** Section `i` appears in the flat data as its header at `HeaderPos(sections, i)`
      followed by exactly its rows, in their original order. */
  lemma FlattenAt<L, T>(sections: seq<Section<L, T>>, i: nat)
    requires i < |sections|
    ensures HeaderPos(sections, i) + |sections[i].rows| < |Flatten(sections)|
    ensures Flatten(sections)[HeaderPos(sections, i)] == Header(sections[i])
    ensures forall k :: 0 <= k < |sections[i].rows| ==>
      Flatten(sections)[HeaderPos(sections, i) + 1 + k] == Row(sections[i].rows[k])
  {
    var before, after := sections[..i], sections[i + 1..];
    assert sections == before + ([sections[i]] + after);
    FlattenAppend(before, [sections[i]] + after);
    FlattenAppend([sections[i]], after);
    assert [sections[i]][1..] == [];
    assert Flatten([sections[i]]) == Block(sections[i]);
    assert Flatten(sections) == Flatten(before) + (Block(sections[i]) + Flatten(after));
  }

  /** The leading row entries of `data` and what follows them. */
  function TakeRows<L, T>(data: seq<Entry<L, T>>): (r: (seq<T>, seq<Entry<L, T>>))
    ensures RowEntries(r.0) + r.1 == data
    ensures r.1 == [] || r.1[0].Header?
  {
    if data == [] then ([], [])
    else match data[0]
      case Header(_) => ([], data)
      case Row(x) =>
        var r := TakeRows(data[1..]);
        RowEntriesCons<L, T>(x, r.0);
        assert data == [Row(x)] + data[1..];
        ([x] + r.0, r.1)
  }

  lemma RowEntriesCons<L, T>(x: T, rows: seq<T>)
    ensures RowEntries<L, T>([x] + rows) == [Row(x)] + RowEntries<L, T>(rows)
  {
  }

  /** Rebuilds the sections from a flat sequence: every header opens a section
      that takes the rows up to the next header. */
  function Regroup<L, T>(data: seq<Entry<L, T>>): seq<Section<L, T>>
    decreases |data|
  {
    if data == [] then []
    else match data[0]
      case Row(_) => Regroup(data[1..])
      case Header(s) =>
        var (rows, rest) := TakeRows(data[1..]);
        assert |RowEntries(rows) + rest| == |data| - 1;
        [Section(s.indexLabel, rows)] + Regroup(rest)
  }

  lemma {:induction false} TakeRowsOf<L, T>(rows: seq<T>, rest: seq<Entry<L, T>>)
    requires rest == [] || rest[0].Header?
    ensures TakeRows(RowEntries(rows) + rest) == (rows, rest)
  {
    if rows == [] {
      assert RowEntries<L, T>(rows) + rest == rest;
    } else {
      var data := RowEntries(rows) + rest;
      assert data[0] == Row(rows[0]);
      assert data[1..] == RowEntries(rows[1..]) + rest;
      TakeRowsOf(rows[1..], rest);
      assert [rows[0]] + rows[1..] == rows;
    }
  }

  /** Flattening loses nothing: regrouping the flat data gives back the
      sections, so no section or row is dropped, reordered or duplicated. */
  lemma {:induction false} RegroupFlatten<L, T>(sections: seq<Section<L, T>>)
    ensures Regroup(Flatten(sections)) == sections
  {
    if sections != [] {
      var s, rest := sections[0], Flatten(sections[1..]);
      assert rest == [] || rest[0].Header? by {
        if sections[1..] != [] {
          assert rest == Block(sections[1..][0]) + Flatten(sections[1..][1..]);
        }
      }
      var data := Flatten(sections);
      assert data[0] == Header(s);
      assert data[1..] == RowEntries(s.rows) + rest;
      TakeRowsOf(s.rows, rest);
      RegroupFlatten(sections[1..]);
      assert [Section(s.indexLabel, s.rows)] + sections[1..] == sections;
    }
  }
}
