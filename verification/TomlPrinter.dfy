/** What the writer of src/cpptoml.h prints, as lines. */
module TomlPrinter {
  import opened TomlText
  import opened TomlValues
  import opened TomlKeys
  import opened TomlListing

  /** indent */
  function Tabs(n: nat): string {
    if n == 0 then "" else "\t" + Tabs(n - 1)
  }

  /** write_table_header without its indentation. */
  function HeaderText(path: seq<string>, inArray: bool): string {
    if inArray then "[[" + PathText(path) + "]]" else "[" + PathText(path) + "]"
  }

  /** The root has no header. */
  function HeaderLines(path: seq<string>, inArray: bool): seq<string> {
    if path == [] then [] else [Tabs(|path| - 1) + HeaderText(path, inArray)]
  }

  /** A key and its value, in the table at `depth`. */
  function ItemLine(key: string, v: Value, depth: nat): string {
    Tabs(depth) + KeyText(key) + " = " + PrintValue(v)
  }

  function ValueLines(items: seq<Entry>, depth: nat): seq<string> {
    if items == [] then []
    else
      (match items[0].content
       case Plain(v) => [ItemLine(items[0].key, v, depth)]
       case _ => [])
      + ValueLines(items[1..], depth)
  }

  function SubLines(items: seq<Entry>, path: seq<string>): seq<string> {
    if items == [] then []
    else ContentLines(items[0].content, path + [items[0].key]) + SubLines(items[1..], path)
  }

  function ContentLines(c: Content, path: seq<string>): seq<string> {
    match c
    case Plain(_) => []
    case Inner(t) => TableLines(t, path, false)
    case Series(ts) => SeriesLines(ts, path)
  }

  function SeriesLines(ts: seq<Listing>, path: seq<string>): seq<string> {
    if ts == [] then [] else TableLines(ts[0], path, true) + SeriesLines(ts[1..], path)
  }

  /** The header, then the values, then the tables. */
  function TableLines(t: Listing, path: seq<string>, inArray: bool): seq<string> {
    HeaderLines(path, inArray) + (ValueLines(t.items, |path|) + SubLines(t.items, path))
  }

  /** The values of a table, and its tables and arrays of tables, in the order of iteration. */
  function Plains(items: seq<Entry>): seq<Entry> {
    if items == [] then []
    else (if items[0].content.Plain? then [items[0]] else []) + Plains(items[1..])
  }

  function Subs(items: seq<Entry>): seq<Entry> {
    if items == [] then []
    else (if items[0].content.Plain? then [] else [items[0]]) + Subs(items[1..])
  }

  function Unlines(lines: seq<string>): string {
    if lines == [] then "" else lines[0] + "\n" + Unlines(lines[1..])
  }

  /** An empty line comes first when nothing has been printed at the first end of line. */
  predicate StartsEmpty(t: Listing) {
    Plains(t.items) == [] && (Subs(t.items) == [] || Subs(t.items)[0].content == Series([]))
  }

  function DocumentLines(t: Listing): seq<string> {
    (if StartsEmpty(t) then [""] else []) + TableLines(t, [], false)
  }

  function Write(t: Listing): string {
    Unlines(DocumentLines(t))
  }
}
