/** Tables of src/cpptoml.h and how a table name finds its way through them. */
module TomlTree {
  import opened Wrappers
  import opened TomlText

  datatype Node = Leaf(v: Value) | Sub(t: Table) | Many(ts: seq<Table>)

  datatype Table = Table(entries: map<string, Node>)

  const EMPTY: Table := Table(map[])

  /** The table that a name component leads to: in an array of tables the last one. */
  function Down(n: Node): Option<Table> {
    match n
    case Leaf(_) => None
    case Sub(t) => Some(t)
    case Many(ts) => if ts == [] then None else Some(ts[|ts| - 1])
  }

  /** The same node with another table there. */
  function Into(n: Node, s: Table): (m: Node)
    requires Down(n).Some?
    ensures Down(m) == Some(s)
  {
    match n
    case Sub(_) => Sub(s)
    case Many(ts) => Many(ts[..|ts| - 1] + [s])
  }

  function At(t: Table, path: seq<string>): Option<Table> {
    if path == [] then Some(t)
    else if path[0] !in t.entries then None
    else
      match Down(t.entries[path[0]])
      case None => None
      case Some(s) => At(s, path[1..])
  }

  function Put(t: Table, path: seq<string>, s: Table): (r: Table)
    requires At(t, path).Some?
    ensures At(r, path) == Some(s)
  {
    if path == [] then s
    else
      var n := t.entries[path[0]];
      Table(t.entries[path[0] := Into(n, Put(Down(n).value, path[1..], s))])
  }

  /** A table that a header may not open again: an empty one, or one with a scalar value. */
  predicate Defined(t: Table) {
    t.entries == map[] || exists k :: k in t.entries && t.entries[k].Leaf? && !t.entries[k].v.Arr?
  }

  /** parse_single_table: walks down and creates what is missing; at the end, at least one table must be new, or
      the table found there must not be defined yet. */
  function OpenTable(t: Table, path: seq<string>, inserted: bool): (r: Result<Table>)
    ensures r.Success? ==> At(r.value, path).Some?
    decreases path
  {
    if path == [] then if !inserted && Defined(t) then Failure else Success(t)
    else if path[0] in t.entries then
      var n := t.entries[path[0]];
      if Down(n).None? then Failure
      else
        var s :- OpenTable(Down(n).value, path[1..], inserted);
        Success(Table(t.entries[path[0] := Into(n, s)]))
    else
      var s :- OpenTable(EMPTY, path[1..], true);
      Success(Table(t.entries[path[0] := Sub(s)]))
  }

  /** parse_table_array: walks down and appends an empty table to the array at the end. */
  function AppendTable(t: Table, path: seq<string>): (r: Result<Table>)
    requires path != []
    ensures r.Success? ==> At(r.value, path).Some?
    decreases path
  {
    var known := path[0] in t.entries;
    if |path| == 1 then
      if !known then Success(Table(t.entries[path[0] := Many([EMPTY])]))
      else
        match t.entries[path[0]]
        case Many(ts) => Success(Table(t.entries[path[0] := Many(ts + [EMPTY])]))
        case _ => Failure
    else if known then
      var n := t.entries[path[0]];
      if Down(n).None? then Failure
      else
        var s :- AppendTable(Down(n).value, path[1..]);
        Success(Table(t.entries[path[0] := Into(n, s)]))
    else
      var s :- AppendTable(EMPTY, path[1..]);
      Success(Table(t.entries[path[0] := Sub(s)]))
  }

  // ---------------------------------------------------------------- laws

  lemma {:induction false} PutPut(t: Table, path: seq<string>, s: Table, s': Table)
    requires At(t, path).Some?
    ensures Put(Put(t, path, s), path, s') == Put(t, path, s')
  {
    if path != [] {
      PutPut(Down(t.entries[path[0]]).value, path[1..], s, s');
    }
  }

  lemma {:induction false} PutSame(t: Table, path: seq<string>)
    requires At(t, path).Some?
    ensures Put(t, path, At(t, path).value) == t
  {
    if path != [] {
      var n := t.entries[path[0]];
      PutSame(Down(n).value, path[1..]);
      assert Into(n, Down(n).value) == n;
      assert t.entries[path[0] := n] == t.entries;
    }
  }

  /** One component deeper. */
  lemma {:induction false} Deeper(t: Table, path: seq<string>, k: string, s: Table)
    requires At(t, path).Some?
    requires k in At(t, path).value.entries && Down(At(t, path).value.entries[k]).Some?
    ensures var x := At(t, path).value.entries;
      && At(t, path + [k]) == Down(x[k])
      && Put(t, path + [k], s) == Put(t, path, Table(x[k := Into(x[k], s)]))
  {
    if path == [] {
      assert path + [k] == [k] && [k][1..] == [];
    } else {
      assert (path + [k])[1..] == path[1..] + [k];
      Deeper(Down(t.entries[path[0]]).value, path[1..], k, s);
    }
  }

  /** A header whose last component is new puts an empty table there and changes nothing else. */
  lemma {:induction false} OpenNew(t: Table, path: seq<string>, k: string, inserted: bool)
    requires At(t, path).Some? && k !in At(t, path).value.entries
    ensures OpenTable(t, path + [k], inserted)
         == Success(Put(t, path, Table(At(t, path).value.entries[k := Sub(EMPTY)])))
  {
    if path == [] {
      assert path + [k] == [k] && [k][1..] == [];
    } else {
      assert (path + [k])[1..] == path[1..] + [k];
      OpenNew(Down(t.entries[path[0]]).value, path[1..], k, inserted);
    }
  }

  /** The tables that an array of tables holds so far. */
  function Tables(t: Table, k: string): Option<seq<Table>> {
    if k !in t.entries then Some([])
    else if t.entries[k].Many? then Some(t.entries[k].ts)
    else None
  }

  lemma {:induction false} AppendNew(t: Table, path: seq<string>, k: string)
    requires At(t, path).Some? && Tables(At(t, path).value, k).Some?
    ensures var x := At(t, path).value;
      AppendTable(t, path + [k]) == Success(Put(t, path, Table(x.entries[k := Many(Tables(x, k).value + [EMPTY])])))
  {
    if path == [] {
      assert path + [k] == [k];
      assert [] + [EMPTY] == [EMPTY];
    } else {
      assert (path + [k])[1..] == path[1..] + [k];
      AppendNew(Down(t.entries[path[0]]).value, path[1..], k);
    }
  }

  // ---------------------------------------------------------------- one component at a time

  lemma {:induction false} AtNext(t: Table, path: seq<string>, k: string)
    ensures At(t, path + [k])
         == if At(t, path).None? || k !in At(t, path).value.entries then None else Down(At(t, path).value.entries[k])
    decreases path
  {
    if path == [] {
      assert path + [k] == [k] && [k][1..] == [];
    } else if path[0] in t.entries && Down(t.entries[path[0]]).Some? {
      assert (path + [k])[1..] == path[1..] + [k];
      AtNext(Down(t.entries[path[0]]).value, path[1..], k);
    }
  }

  lemma UpdateTwice(m: map<string, Node>, k: string, n: Node, s: Table, s': Table)
    requires Down(n).Some?
    ensures m[k := Into(n, s)][k := Into(Into(n, s), s')] == m[k := Into(n, s')]
  {
    if n.Many? {
      assert (n.ts[..|n.ts| - 1] + [s])[..|n.ts| - 1] == n.ts[..|n.ts| - 1];
    }
  }

  /** The table at the end of the rest of a name is reached through its first component. */
  lemma PutThrough(m: map<string, Node>, k: string, n: Node, s: Table, path: seq<string>, s': Table)
    requires path != [] && path[0] == k && Down(n).Some? && At(s, path[1..]).Some?
    ensures At(Table(m[k := Into(n, s)]), path) == At(s, path[1..])
    ensures Put(Table(m[k := Into(n, s)]), path, s') == Table(m[k := Into(n, Put(s, path[1..], s'))])
  {
    UpdateTwice(m, k, n, s, Put(s, path[1..], s'));
  }

  /** Walking one component further. */
  lemma {:induction false} OpenNext(t: Table, path: seq<string>, k: string)
    requires OpenTable(t, path, true).Success?
    ensures var r := OpenTable(t, path, true).value;
      var x := At(r, path).value;
      OpenTable(t, path + [k], true)
        == if k !in x.entries then Success(Put(r, path, Table(x.entries[k := Sub(EMPTY)])))
           else if Down(x.entries[k]).None? then Failure
           else Success(r)
    decreases path
  {
    if path == [] {
      assert path + [k] == [k] && [k][1..] == [];
      if k in t.entries && Down(t.entries[k]).Some? {
        assert Into(t.entries[k], Down(t.entries[k]).value) == t.entries[k];
        assert t.entries[k := t.entries[k]] == t.entries;
      }
    } else {
      assert (path + [k])[1..] == path[1..] + [k];
      var n := if path[0] in t.entries then t.entries[path[0]] else Sub(EMPTY);
      OpenNext(Down(n).value, path[1..], k);
      var s := OpenTable(Down(n).value, path[1..], true).value;
      var x := At(s, path[1..]).value;
      PutThrough(t.entries, path[0], n, s, path, Table(x.entries[k := Sub(EMPTY)]));
    }
  }

  /** The last component of the name of an array of tables. */
  lemma {:induction false} AppendNext(t: Table, path: seq<string>, k: string)
    requires OpenTable(t, path, true).Success?
    ensures var r := OpenTable(t, path, true).value;
      var x := At(r, path).value;
      AppendTable(t, path + [k])
        == if Tables(x, k).None? then Failure
           else Success(Put(r, path, Table(x.entries[k := Many(Tables(x, k).value + [EMPTY])])))
    decreases path
  {
    if path == [] {
      assert path + [k] == [k] && [] + [EMPTY] == [EMPTY];
    } else {
      assert (path + [k])[1..] == path[1..] + [k];
      var n := if path[0] in t.entries then t.entries[path[0]] else Sub(EMPTY);
      AppendNext(Down(n).value, path[1..], k);
      var s := OpenTable(Down(n).value, path[1..], true).value;
      var x := At(s, path[1..]).value;
      if Tables(x, k).Some? {
        PutThrough(t.entries, path[0], n, s, path, Table(x.entries[k := Many(Tables(x, k).value + [EMPTY])]));
      }
    }
  }

  /** A name that leads to a value leads nowhere. */
  lemma {:induction false} OpenStuck(t: Table, path: seq<string>, more: seq<string>, inserted: bool)
    requires OpenTable(t, path, true).Failure?
    ensures OpenTable(t, path + more, inserted).Failure?
    ensures more != [] ==> AppendTable(t, path + more).Failure?
    decreases path
  {
    if path != [] {
      assert (path + more)[1..] == path[1..] + more;
      if path[0] in t.entries {
        if Down(t.entries[path[0]]).Some? {
          OpenStuck(Down(t.entries[path[0]]).value, path[1..], more, inserted);
        }
      } else {
        OpenStuck(EMPTY, path[1..], more, true);
      }
    }
  }

  /** The check at the end of a name matters only when nothing was created. */
  lemma {:induction false} OpenChecked(t: Table, path: seq<string>)
    ensures OpenTable(t, path, false)
         == if At(t, path).Some? && Defined(At(t, path).value) then Failure else OpenTable(t, path, true)
    decreases path
  {
    if path != [] && path[0] in t.entries && Down(t.entries[path[0]]).Some? {
      OpenChecked(Down(t.entries[path[0]]).value, path[1..]);
    }
  }
}
