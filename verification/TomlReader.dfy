/** The reader of src/cpptoml.h, line by line. */
module TomlReader {
  import opened Wrappers
  import opened TomlText
  import opened TomlKeys
  import opened TomlTree

  /** The tables read so far, and the name of the table that receives keys. */
  datatype Reading = Reading(root: Table, cur: seq<string>)

  /** The current table exists. */
  predicate Valid(st: Reading) {
    At(st.root, st.cur).Some?
  }

  function Current(st: Reading): map<string, Node>
    requires Valid(st)
  {
    At(st.root, st.cur).value.entries
  }

  function Insert(st: Reading, key: string, v: Value): (r: Reading)
    requires Valid(st)
    ensures Valid(r)
  {
    st.(root := Put(st.root, st.cur, Table(Current(st)[key := Leaf(v)])))
  }

  /** eol_or_comment */
  predicate LineEnds(s: string) {
    var t := SkipBlanks(s);
    t == "" || t[0] == '#'
  }

  /** parse_single_table behind its bracket. */
  function TableHeader(s: string, root: Table): (r: Result<Reading>)
    ensures r.Success? ==> Valid(r.value)
  {
    if s == "" || s[0] == ']' then Failure
    else
      var name :- PathKeys(s);
      var t :- OpenTable(root, name.0, false);
      if LineEnds(name.1[1..]) then Success(Reading(t, name.0)) else Failure
  }

  /** parse_table_array behind its brackets; the character behind the first closing bracket is not looked at. */
  function SeriesHeader(s: string, root: Table): (r: Result<Reading>)
    ensures r.Success? ==> Valid(r.value)
  {
    if s == "" || s[0] == ']' then Failure
    else
      var name :- PathKeys(s);
      var t :- AppendTable(root, name.0);
      if |name.1| >= 2 && LineEnds(name.1[2..]) then Success(Reading(t, name.0)) else Failure
  }

  /** parse_table */
  function Header(s: string, root: Table): (r: Result<Reading>)
    ensures r.Success? ==> Valid(r.value)
  {
    if s == "" then Failure
    else if s[0] == '[' then SeriesHeader(s[1..], root)
    else TableHeader(s, root)
  }

  /** parse_key_value and the end of its line; the lines that the value leaves. */
  function KeyValue(s: string, lines: seq<string>, st: Reading): (r: Result<(Reading, seq<string>)>)
    requires Valid(st)
    ensures r.Success? ==> Valid(r.value.0) && |r.value.1| <= |lines|
  {
    var part :- ParseKey(s, {'='});
    if part.0 in Current(st) || part.1 == "" || part.1[0] != '=' then Failure
    else
      var v :- ParseValue(Place(SkipBlanks(part.1[1..]), lines));
      if LineEnds(v.1.text) then Success((Insert(st, part.0, v.0), v.1.lines)) else Failure
  }

  /** The loop of parse. */
  function Exec(lines: seq<string>, st: Reading): (r: Result<Reading>)
    requires Valid(st)
    ensures r.Success? ==> Valid(r.value)
    decreases |lines|
  {
    if lines == [] then Success(st)
    else
      var s := SkipBlanks(lines[0]);
      if s == "" || s[0] == '#' then Exec(lines[1..], st)
      else if s[0] == '[' then
        var st' :- Header(s[1..], st.root);
        Exec(lines[1..], st')
      else
        var next :- KeyValue(s, lines[1..], st);
        Exec(next.1, next.0)
  }

  /** How many characters stand before the first end of line. */
  function LineLength(s: string): (n: nat)
    ensures n <= |s| && (n < |s| ==> s[n] == '\n')
    ensures forall i :: 0 <= i < n ==> s[i] != '\n'
  {
    if s == "" || s[0] == '\n' then 0 else 1 + LineLength(s[1..])
  }

  /** getline until the end of the stream. */
  function Lines(s: string): seq<string>
    decreases |s|
  {
    if s == "" then []
    else
      var n := LineLength(s);
      [s[..n]] + (if n < |s| then Lines(s[n + 1..]) else [])
  }

  function Parse(s: string): Result<Table> {
    var st :- Exec(Lines(s), Reading(EMPTY, []));
    Success(st.root)
  }
}
