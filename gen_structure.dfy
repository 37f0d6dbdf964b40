/**
 * The directory-tree printer: which names are skipped, and the exact lines
 * printed for a directory (connectors, guide prefixes, order, count).
 *
 * The file system is an `Entry` tree given as a value; the printed lines are
 * the returned `seq<string>`.
 */
module GenStructure {
  import opened Strings

  /** A directory entry as `os.listdir` / `os.path.isdir` see it. */
  datatype Entry = File(name: string) | Dir(name: string, children: seq<Entry>)

  /** Names skipped wherever they occur. */
  const Ignored: set<string> := {"__pycache__", ".git", ".idea", ".vscode", "node_modules", "venv"}

  /** Extensions skipped wherever they occur. */
  const IgnoredExt: set<string> := {".pyc", ".pyo", ".pyd", ".log", ".ini"}

  const Tee: string := "├── "
  const Elbow: string := "└── "
  const Pipe: string := "│   "
  const Blank: string := "    "

  // ---------------------------------------------------------------------
  // Extensions and the ignore rule
  // ---------------------------------------------------------------------

  /**
   * `name[i..]` is the extension of `name` under the rules of POSIX
   * `os.path.splitext`: `i` is the last dot, it lies after the last `/`, and
   * some character between that `/` and the dot is not a dot (leading dots of
   * the final component do not start an extension).
   */
  ghost predicate SplitsAt(name: string, i: int)
  {
    && 0 <= i < |name|
    && name[i] == '.'
    && (forall k :: i < k < |name| ==> name[k] != '.' && name[k] != '/')
    && exists k :: 0 <= k < i && name[k] != '.' && name[k] != '/'
                   && forall m :: k < m < i ==> name[m] != '/'
  }

  /** Any split point is the last dot, lies after the last `/`, and has a non-dot before it. */
  lemma SplitIsLastDot(name: string)
    ensures forall i :: SplitsAt(name, i) ==>
      && i == LastIndexOf(name, '.')
      && LastIndexOf(name, '/') < i
      && exists k :: LastIndexOf(name, '/') < k < i && name[k] != '.'
  {
    var sep := LastIndexOf(name, '/');
    forall i | SplitsAt(name, i)
      ensures i == LastIndexOf(name, '.') && sep < i
      ensures exists k :: sep < k < i && name[k] != '.'
    {
      var k :| 0 <= k < i && name[k] != '.' && name[k] != '/'
               && forall m :: k < m < i ==> name[m] != '/';
      assert sep < k;
    }
  }

  /** The extension part of `os.path.splitext(name)` (POSIX rules). */
  function Extension(name: string): (ext: string)
    ensures ext != [] ==> |ext| <= |name| && SplitsAt(name, |name| - |ext|) && ext == name[|name| - |ext|..]
    ensures ext == [] ==> forall i :: !SplitsAt(name, i)
  {
    SplitIsLastDot(name);
    var sep := LastIndexOf(name, '/');
    var dot := LastIndexOf(name, '.');
    if dot > sep && exists k :: sep < k < dot && name[k] != '.' then
      var ext := name[dot..];
      assert SplitsAt(name, dot) by {
        var k :| sep < k < dot && name[k] != '.';
        assert forall m :: k < m < dot ==> name[m] != '/';
      }
      ext
    else
      []
  }

  /** `debe_ignorar`: the name is listed, or its extension is. */
  function ShouldIgnore(name: string): (b: bool)
    ensures name in Ignored ==> b
    ensures name !in Ignored ==> (b <==> exists i :: SplitsAt(name, i) && name[i..] in IgnoredExt)
  {
    name in Ignored || Extension(name) in IgnoredExt
  }

  /** A dot-file whose whole name looks like an extension has no extension. */
  lemma LeadingDotIsNotExtension()
    ensures Extension(".log") == [] && !ShouldIgnore(".log")
    ensures Extension("a.tar.log") == ".log" && ShouldIgnore("a.tar.log")
    ensures Extension("..log") == [] && Extension("a.") == "."
  {
    assert !SplitsAt(".log", 0);
    assert SplitsAt("a.tar.log", 5) by {
      assert "a.tar.log"[0] == 'a';
    }
    assert !SplitsAt("..log", 1);
    assert !SplitsAt("..log", 0);
    assert SplitsAt("a.", 1) by {
      assert "a."[0] == 'a';
    }
    assert ".log" !in Ignored;
    assert !(".log" in Ignored) && Extension(".log") == [];
  }

  // ---------------------------------------------------------------------
  // Ordering of names (Python's `<=` on str) and `sorted`
  // ---------------------------------------------------------------------

  /** Lexicographic order on code points: `a <= b` for Python strings. */
  predicate NameLe(a: string, b: string)
  {
    |a| == 0 || (|b| > 0 && (a[0] < b[0] || (a[0] == b[0] && NameLe(a[1..], b[1..]))))
  }

  lemma {:induction false} NameLeTotal(a: string, b: string)
    ensures NameLe(a, b) || NameLe(b, a)
  {
    if |a| > 0 && |b| > 0 && a[0] == b[0] {
      NameLeTotal(a[1..], b[1..]);
    }
  }

  lemma {:induction false} NameLeTrans(a: string, b: string, c: string)
    requires NameLe(a, b) && NameLe(b, c)
    ensures NameLe(a, c)
  {
    if |a| > 0 && |b| > 0 && |c| > 0 && a[0] == b[0] && b[0] == c[0] {
      NameLeTrans(a[1..], b[1..], c[1..]);
    }
  }

  ghost predicate SortedByName(s: seq<Entry>)
  {
    forall i, j :: 0 <= i < j < |s| ==> NameLe(s[i].name, s[j].name)
  }

  /** Every element of `s` has a name at least `x`'s. */
  ghost predicate AllAbove(x: string, s: seq<Entry>)
  {
    forall k :: 0 <= k < |s| ==> NameLe(x, s[k].name)
  }

  lemma AboveHeadOfSorted(x: string, s: seq<Entry>)
    requires |s| > 0 && SortedByName(s) && NameLe(x, s[0].name)
    ensures AllAbove(x, s)
  {
    forall k | 0 < k < |s| ensures NameLe(x, s[k].name) {
      NameLeTrans(x, s[0].name, s[k].name);
    }
  }

  lemma AboveAfterInsert(x: string, e: Entry, s: seq<Entry>, r: seq<Entry>)
    requires multiset(r) == multiset(s) + multiset{e}
    requires NameLe(x, e.name) && AllAbove(x, s)
    ensures AllAbove(x, r)
  {
    forall k | 0 <= k < |r| ensures NameLe(x, r[k].name) {
      assert r[k] in multiset(r);
      if r[k] != e {
        assert r[k] in multiset(s);
        var j :| 0 <= j < |s| && s[j] == r[k];
      }
    }
  }

  lemma SortedCons(h: Entry, rest: seq<Entry>)
    requires AllAbove(h.name, rest) && SortedByName(rest)
    ensures SortedByName([h] + rest)
  {
    forall i, j | 0 <= i < j < |[h] + rest| ensures NameLe(([h] + rest)[i].name, ([h] + rest)[j].name) {
      if i > 0 {
        assert ([h] + rest)[i] == rest[i - 1];
      }
      assert ([h] + rest)[j] == rest[j - 1];
    }
  }

  function InsertByName(e: Entry, s: seq<Entry>): (r: seq<Entry>)
    requires SortedByName(s)
    ensures multiset(r) == multiset(s) + multiset{e}
    ensures SortedByName(r)
  {
    if |s| == 0 then [e]
    else if NameLe(e.name, s[0].name) then
      AboveHeadOfSorted(e.name, s);
      SortedCons(e, s);
      [e] + s
    else
      NameLeTotal(e.name, s[0].name);
      var rest := InsertByName(e, s[1..]);
      AboveAfterInsert(s[0].name, e, s[1..], rest);
      SortedCons(s[0], rest);
      assert s == [s[0]] + s[1..];
      [s[0]] + rest
  }

  /** `sorted` on entries by name: a sorted permutation of `s`. */
  function SortByName(s: seq<Entry>): (r: seq<Entry>)
    ensures multiset(r) == multiset(s)
    ensures SortedByName(r)
  {
    if |s| == 0 then []
    else
      assert s == [s[0]] + s[1..];
      InsertByName(s[0], SortByName(s[1..]))
  }

  // ---------------------------------------------------------------------
  // The listing of one directory
  // ---------------------------------------------------------------------

  /** The children whose names are not ignored, in their original order. */
  function Visible(cs: seq<Entry>): (v: seq<Entry>)
    ensures forall e :: e in v <==> e in cs && !ShouldIgnore(e.name)
  {
    if |cs| == 0 then []
    else (if ShouldIgnore(cs[0].name) then [] else [cs[0]]) + Visible(cs[1..])
  }

  /** `elementos`: the non-ignored children of `d`, sorted by name. */
  function Listing(d: Entry): (elems: seq<Entry>)
    requires d.Dir?
    ensures forall e :: e in elems <==> e in d.children && !ShouldIgnore(e.name)
    ensures multiset(elems) == multiset(Visible(d.children))
    ensures SortedByName(elems)
  {
    var v := Visible(d.children);
    var r := SortByName(v);
    assert forall e :: e in r <==> e in multiset(r);
    assert forall e :: e in v <==> e in multiset(v);
    r
  }

  function Connector(last: bool): string {
    if last then Elbow else Tee
  }

  function ChildIndent(last: bool): string {
    if last then Blank else Pipe
  }

  /** `generar_arbol(d, prefix)`: the lines printed for directory `d`. */
  function Tree(d: Entry, prefix: string): (lines: seq<string>)
    requires d.Dir?
    ensures forall k :: 0 <= k < |lines| ==> prefix <= lines[k]
    decreases d, 1
  {
    Level(d, Listing(d), 0, prefix)
  }

  /** The iterations `i..` of the `for` loop over `enumerate(elementos)`. */
  function Level(ghost d: Entry, elems: seq<Entry>, i: nat, prefix: string): (lines: seq<string>)
    requires d.Dir? && i <= |elems|
    requires forall e :: e in elems ==> e in d.children
    ensures forall k :: 0 <= k < |lines| ==> prefix <= lines[k]
    decreases d, 0, |elems| - i
  {
    if i == |elems| then []
    else
      var last := i == |elems| - 1;
      var e := elems[i];
      assert e in d.children by { assert e in elems; }
      [prefix + Connector(last) + e.name]
      + (if e.Dir? then Tree(e, prefix + ChildIndent(last)) else [])
      + Level(d, elems, i + 1, prefix)
  }

  // ---------------------------------------------------------------------
  // Layout-free view of the listing
  // ---------------------------------------------------------------------

  /**
   * One printed entry without its text: `guides[k]` tells whether the
   * ancestor at depth `k` (below the starting directory) was the last entry
   * of its own level, `last` whether this entry is, and `name` its name.
   */
  datatype Row = Row(guides: seq<bool>, last: bool, name: string)

  function Rows(d: Entry): seq<Row>
    requires d.Dir?
    decreases d, 1
  {
    LevelRows(d, Listing(d), 0)
  }

  function LevelRows(ghost d: Entry, elems: seq<Entry>, i: nat): seq<Row>
    requires d.Dir? && i <= |elems|
    requires forall e :: e in elems ==> e in d.children
    decreases d, 0, |elems| - i
  {
    if i == |elems| then []
    else
      var last := i == |elems| - 1;
      assert elems[i] in d.children by { assert elems[i] in elems; }
      [Row([], last, elems[i].name)]
      + (if elems[i].Dir? then Nest(last, Rows(elems[i])) else [])
      + LevelRows(d, elems, i + 1)
  }

  /** The rows of a subtree seen one level further down. */
  function Nest(last: bool, rows: seq<Row>): (r: seq<Row>)
    ensures |r| == |rows|
    ensures forall k :: 0 <= k < |r| ==> r[k] == Row([last] + rows[k].guides, rows[k].last, rows[k].name)
  {
    if |rows| == 0 then []
    else [Row([last] + rows[0].guides, rows[0].last, rows[0].name)] + Nest(last, rows[1..])
  }

  /** The guide columns of a row: four characters per ancestor level. */
  function Indent(guides: seq<bool>): (s: string)
    ensures |s| == 4 * |guides|
  {
    if |guides| == 0 then [] else ChildIndent(guides[0]) + Indent(guides[1..])
  }

  function RowText(prefix: string, r: Row): string {
    prefix + Indent(r.guides) + Connector(r.last) + r.name
  }

  function Render(prefix: string, rows: seq<Row>): (lines: seq<string>)
    ensures |lines| == |rows|
  {
    if |rows| == 0 then [] else [RowText(prefix, rows[0])] + Render(prefix, rows[1..])
  }

  lemma {:induction false} RenderConcat(prefix: string, a: seq<Row>, b: seq<Row>)
    ensures Render(prefix, a + b) == Render(prefix, a) + Render(prefix, b)
  {
    if |a| > 0 {
      assert (a + b)[1..] == a[1..] + b;
      RenderConcat(prefix, a[1..], b);
    } else {
      assert a + b == b;
    }
  }

  lemma RenderHeader(prefix: string, last: bool, name: string)
    ensures Render(prefix, [Row([], last, name)]) == [prefix + Connector(last) + name]
  {
    assert [Row([], last, name)][1..] == [];
    assert Indent([]) == [];
    assert prefix + [] == prefix;
  }

  lemma {:induction false} RenderAt(prefix: string, rows: seq<Row>, k: nat)
    requires k < |rows|
    ensures Render(prefix, rows)[k] == RowText(prefix, rows[k])
  {
    if k > 0 {
      RenderAt(prefix, rows[1..], k - 1);
    }
  }

  lemma IndentCons(b: bool, g: seq<bool>)
    ensures Indent([b] + g) == ChildIndent(b) + Indent(g)
  {
    assert ([b] + g)[1..] == g;
  }

  lemma {:induction false} NestRender(last: bool, prefix: string, rows: seq<Row>)
    ensures Render(prefix, Nest(last, rows)) == Render(prefix + ChildIndent(last), rows)
  {
    if |rows| > 0 {
      var r := rows[0];
      NestRender(last, prefix, rows[1..]);
      IndentCons(last, r.guides);
      assert RowText(prefix, Row([last] + r.guides, r.last, r.name))
          == RowText(prefix + ChildIndent(last), r);
    }
  }

  /**
   * Line `k` printed for `d` is the caller's prefix, one guide column per
   * ancestor level, the connector chosen by whether the entry is last at its
   * level, and the entry's name.
   */
  lemma {:induction false} TreeLayout(d: Entry, prefix: string)
    requires d.Dir?
    ensures Tree(d, prefix) == Render(prefix, Rows(d))
    decreases d, 1
  {
    LevelLayout(d, Listing(d), 0, prefix);
  }

  lemma {:induction false} LevelLayout(d: Entry, elems: seq<Entry>, i: nat, prefix: string)
    requires d.Dir? && i <= |elems|
    requires forall e :: e in elems ==> e in d.children
    ensures Level(d, elems, i, prefix) == Render(prefix, LevelRows(d, elems, i))
    decreases d, 0, |elems| - i
  {
    if i < |elems| {
      var last := i == |elems| - 1;
      var e := elems[i];
      assert e in d.children by { assert e in elems; }
      var head := [Row([], last, e.name)];
      var sub := if e.Dir? then Nest(last, Rows(e)) else [];
      var rest := LevelRows(d, elems, i + 1);
      var subLines := if e.Dir? then Tree(e, prefix + ChildIndent(last)) else [];
      assert LevelRows(d, elems, i) == head + sub + rest;
      assert Level(d, elems, i, prefix) == [prefix + Connector(last) + e.name] + subLines + Level(d, elems, i + 1, prefix);
      LevelLayout(d, elems, i + 1, prefix);
      if e.Dir? {
        TreeLayout(e, prefix + ChildIndent(last));
        NestRender(last, prefix, Rows(e));
      }
      assert Render(prefix, sub) == subLines;
      RenderHeader(prefix, last, e.name);
      RenderConcat(prefix, head, sub);
      RenderConcat(prefix, head + sub, rest);
    }
  }

  /** A line at depth `|g|` starts with a prefix of `4 * |g|` guide characters. */
  lemma LineDepth(d: Entry, prefix: string, k: nat)
    requires d.Dir? && k < |Tree(d, prefix)|
    ensures k < |Rows(d)|
    ensures Tree(d, prefix)[k] == prefix + Indent(Rows(d)[k].guides) + Connector(Rows(d)[k].last) + Rows(d)[k].name
    ensures |Indent(Rows(d)[k].guides)| == 4 * |Rows(d)[k].guides|
  {
    TreeLayout(d, prefix);
    RenderAt(prefix, Rows(d), k);
  }

  // ---------------------------------------------------------------------
  // The entries at the first level, and which names appear at all
  // ---------------------------------------------------------------------

  /** The rows of the first level (no ancestor guides). */
  function Top(rows: seq<Row>): seq<Row>
  {
    if |rows| == 0 then []
    else (if rows[0].guides == [] then [rows[0]] else []) + Top(rows[1..])
  }

  lemma {:induction false} TopConcat(a: seq<Row>, b: seq<Row>)
    ensures Top(a + b) == Top(a) + Top(b)
  {
    if |a| > 0 {
      assert (a + b)[1..] == a[1..] + b;
      TopConcat(a[1..], b);
    } else {
      assert a + b == b;
    }
  }

  lemma {:induction false} TopNest(last: bool, rows: seq<Row>)
    ensures Top(Nest(last, rows)) == []
  {
    if |rows| > 0 {
      assert Nest(last, rows)[1..] == Nest(last, rows[1..]);
      TopNest(last, rows[1..]);
    }
  }

  /** The header row that entry `k` of a level of `n` entries gets. */
  function Header(elems: seq<Entry>, k: nat): Row
    requires k < |elems|
  {
    Row([], k == |elems| - 1, elems[k].name)
  }

  lemma {:induction false} LevelTop(d: Entry, elems: seq<Entry>, i: nat)
    requires d.Dir? && i <= |elems|
    requires forall e :: e in elems ==> e in d.children
    ensures |Top(LevelRows(d, elems, i))| == |elems| - i
    ensures forall k :: i <= k < |elems| ==> Top(LevelRows(d, elems, i))[k - i] == Header(elems, k)
    decreases |elems| - i
  {
    if i < |elems| {
      var last := i == |elems| - 1;
      var head := [Row([], last, elems[i].name)];
      var sub := if elems[i].Dir? then Nest(last, Rows(elems[i])) else [];
      var rest := LevelRows(d, elems, i + 1);
      assert LevelRows(d, elems, i) == head + sub + rest;
      LevelTop(d, elems, i + 1);
      TopConcat(head + sub, rest);
      TopConcat(head, sub);
      if elems[i].Dir? { TopNest(last, Rows(elems[i])); }
      assert Top(head) == head;
      var top := Top(rest);
      assert Top(LevelRows(d, elems, i)) == head + top;
      forall k | i <= k < |elems| ensures (head + top)[k - i] == Header(elems, k) {
        if k > i {
          assert (head + top)[k - i] == top[k - (i + 1)];
        }
      }
    }
  }

  /**
   * The first-level rows are exactly the sorted non-ignored children, and
   * only the final one is marked last (gets the elbow connector).
   */
  lemma FirstLevel(d: Entry)
    requires d.Dir?
    ensures |Top(Rows(d))| == |Listing(d)|
    ensures forall k :: 0 <= k < |Listing(d)| ==>
      Top(Rows(d))[k].name == Listing(d)[k].name && (Top(Rows(d))[k].last <==> k == |Listing(d)| - 1)
  {
    var elems := Listing(d);
    LevelTop(d, elems, 0);
    forall k | 0 <= k < |elems|
      ensures Top(Rows(d))[k] == Header(elems, k)
    {
    }
  }

  /** No row, at any depth, carries an ignored name. */
  lemma {:induction false} RowsSkipIgnored(d: Entry)
    requires d.Dir?
    ensures forall k :: 0 <= k < |Rows(d)| ==> !ShouldIgnore(Rows(d)[k].name)
    decreases d, 1
  {
    LevelRowsSkipIgnored(d, Listing(d), 0);
  }

  ghost predicate NoIgnoredName(rows: seq<Row>) {
    forall k :: 0 <= k < |rows| ==> !ShouldIgnore(rows[k].name)
  }

  lemma NoIgnoredConcat(a: seq<Row>, b: seq<Row>)
    requires NoIgnoredName(a) && NoIgnoredName(b)
    ensures NoIgnoredName(a + b)
  {
    forall k | 0 <= k < |a + b| ensures !ShouldIgnore((a + b)[k].name) {
      if k < |a| {
        assert (a + b)[k] == a[k];
      } else {
        assert (a + b)[k] == b[k - |a|];
      }
    }
  }

  lemma {:induction false} LevelRowsSkipIgnored(d: Entry, elems: seq<Entry>, i: nat)
    requires d.Dir? && i <= |elems|
    requires forall e :: e in elems ==> e in d.children && !ShouldIgnore(e.name)
    ensures NoIgnoredName(LevelRows(d, elems, i))
    decreases d, 0, |elems| - i
  {
    if i < |elems| {
      var last := i == |elems| - 1;
      var head := [Row([], last, elems[i].name)];
      var sub := if elems[i].Dir? then Nest(last, Rows(elems[i])) else [];
      var rest := LevelRows(d, elems, i + 1);
      assert LevelRows(d, elems, i) == head + sub + rest;
      assert elems[i] in elems;
      LevelRowsSkipIgnored(d, elems, i + 1);
      if elems[i].Dir? {
        RowsSkipIgnored(elems[i]);
      }
      assert NoIgnoredName(sub);
      NoIgnoredConcat(head, sub);
      NoIgnoredConcat(head + sub, rest);
    }
  }

  // ---------------------------------------------------------------------
  // How many lines are printed
  // ---------------------------------------------------------------------

  /** Entries below `d` that are printed, counted over the unsorted children. */
  function Count(d: Entry): nat
    requires d.Dir?
    decreases d, 1
  {
    CountFrom(d, 0)
  }

  function CountFrom(d: Entry, i: nat): nat
    requires d.Dir? && i <= |d.children|
    decreases d, 0, |d.children| - i
  {
    if i == |d.children| then 0
    else
      var c := d.children[i];
      (if ShouldIgnore(c.name) then 0 else Weight(c)) + CountFrom(d, i + 1)
  }

  /** One line for the entry itself plus the lines of its subtree. */
  function Weight(e: Entry): nat
    decreases e, 2
  {
    1 + (if e.Dir? then Count(e) else 0)
  }

  function SumWeights(s: seq<Entry>): nat {
    if |s| == 0 then 0 else Weight(s[0]) + SumWeights(s[1..])
  }

  lemma {:induction false} SumInsert(e: Entry, s: seq<Entry>)
    requires SortedByName(s)
    ensures SumWeights(InsertByName(e, s)) == Weight(e) + SumWeights(s)
  {
    if |s| > 0 && !NameLe(e.name, s[0].name) {
      SumInsert(e, s[1..]);
    }
  }

  lemma {:induction false} SumSort(s: seq<Entry>)
    ensures SumWeights(SortByName(s)) == SumWeights(s)
  {
    if |s| > 0 {
      SumSort(s[1..]);
      SumInsert(s[0], SortByName(s[1..]));
    }
  }

  lemma {:induction false} SumVisible(d: Entry, i: nat)
    requires d.Dir? && i <= |d.children|
    ensures SumWeights(Visible(d.children[i..])) == CountFrom(d, i)
    decreases |d.children| - i
  {
    if i < |d.children| {
      SumVisible(d, i + 1);
      var cs := d.children[i..];
      assert cs[1..] == d.children[i + 1..];
      var head := if ShouldIgnore(cs[0].name) then [] else [cs[0]];
      SumConcat(head, Visible(cs[1..]));
    }
  }

  lemma {:induction false} SumConcat(a: seq<Entry>, b: seq<Entry>)
    ensures SumWeights(a + b) == SumWeights(a) + SumWeights(b)
  {
    if |a| > 0 {
      assert (a + b)[1..] == a[1..] + b;
      SumConcat(a[1..], b);
    } else {
      assert a + b == b;
    }
  }

  lemma {:induction false} RowsCount(d: Entry)
    requires d.Dir?
    ensures |Rows(d)| == Count(d)
    decreases d, 1
  {
    LevelRowsCount(d, Listing(d), 0);
    assert Listing(d)[0..] == Listing(d);
    SumSort(Visible(d.children));
    SumVisible(d, 0);
    assert d.children[0..] == d.children;
  }

  lemma {:induction false} LevelRowsCount(d: Entry, elems: seq<Entry>, i: nat)
    requires d.Dir? && i <= |elems|
    requires forall e :: e in elems ==> e in d.children
    ensures |LevelRows(d, elems, i)| == SumWeights(elems[i..])
    decreases d, 0, |elems| - i
  {
    if i < |elems| {
      LevelRowsCount(d, elems, i + 1);
      assert elems[i..][1..] == elems[i + 1..];
      if elems[i].Dir? {
        assert elems[i] in d.children by { assert elems[i] in elems; }
        RowsCount(elems[i]);
      }
    }
  }

  /**
   * The number of printed lines is the number of non-ignored entries plus
   * the lines of their non-ignored subdirectories.
   */
  lemma LineCount(d: Entry, prefix: string)
    requires d.Dir?
    ensures |Tree(d, prefix)| == Count(d)
  {
    TreeLayout(d, prefix);
    RowsCount(d);
  }

  /** Replacing an ignored child, whatever it holds, leaves the visible children as they were. */
  lemma {:induction false} VisibleReplaceIgnored(cs: seq<Entry>, c: nat, e: Entry)
    requires c < |cs| && ShouldIgnore(cs[c].name) && e.name == cs[c].name
    ensures Visible(cs[c := e]) == Visible(cs)
  {
    if c == 0 {
      assert cs[c := e][1..] == cs[1..];
    } else {
      assert cs[c := e][1..] == cs[1..][c - 1 := e];
      VisibleReplaceIgnored(cs[1..], c - 1, e);
    }
  }

  /** The loop prints the same lines for the same listing, whichever directory it came from. */
  lemma {:induction false} LevelSameListing(d1: Entry, d2: Entry, elems: seq<Entry>, i: nat, prefix: string)
    requires d1.Dir? && d2.Dir? && i <= |elems|
    requires forall e :: e in elems ==> e in d1.children && e in d2.children
    ensures Level(d1, elems, i, prefix) == Level(d2, elems, i, prefix)
    decreases |elems| - i
  {
    if i < |elems| {
      LevelSameListing(d1, d2, elems, i + 1, prefix);
    }
  }

  /**
   * An ignored directory is never descended into: whatever an ignored child
   * holds, replacing it by any entry of the same name prints the same lines.
   */
  lemma IgnoredChildNotDescended(d: Entry, c: nat, e: Entry, prefix: string)
    requires d.Dir? && c < |d.children| && ShouldIgnore(d.children[c].name) && e.name == d.children[c].name
    ensures Tree(Dir(d.name, d.children[c := e]), prefix) == Tree(d, prefix)
  {
    var d2 := Dir(d.name, d.children[c := e]);
    VisibleReplaceIgnored(d.children, c, e);
    assert Listing(d2) == Listing(d);
    LevelSameListing(d2, d, Listing(d), 0, prefix);
  }

  /** A directory prints nothing exactly when every child is ignored. */
  lemma EmptyWhenAllIgnored(d: Entry, prefix: string)
    requires d.Dir?
    ensures Tree(d, prefix) == [] <==> forall k :: 0 <= k < |d.children| ==> ShouldIgnore(d.children[k].name)
  {
    var elems := Listing(d);
    if elems != [] {
      assert elems[0] in elems;
      assert |Level(d, elems, 0, prefix)| > 0;
    } else {
      forall k | 0 <= k < |d.children| ensures ShouldIgnore(d.children[k].name) {
        assert d.children[k] in d.children;
        assert d.children[k] !in elems;
      }
    }
  }
}
