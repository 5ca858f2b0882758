/** The parsed HTML pages the scraper reads, reduced to what it looks at: table rows
    of `td` cells, each cell's text, its `headers` attribute and the links inside it,
    and the links of the whole page. BeautifulSoup's own tree is not modelled. */
module Html {
  import opened Text

  datatype Option<T> = None | Some(value: T)

  /** A `td` element: its `.text`, the tokens of its `headers` attribute (empty when
      the attribute is absent) and the `href` of each anchor inside it, in document order. */
  datatype Cell = Cell(text: string, headers: seq<string>, anchors: seq<string>)

  /** A `tr` element, as the list `row.find_all("td")` returns. */
  type Row = seq<Cell>

  /** A fetched page: its tables in document order, each a list of rows, and the
      `href` of every anchor on the page, in document order. */
  datatype Document = Document(tables: seq<seq<Row>>, hrefs: seq<string>)

  /** `soup.find_all("tr")`: the rows of all tables, in document order. */
  function AllRows(tables: seq<seq<Row>>): seq<Row> {
    if tables == [] then [] else AllRows(tables[..|tables| - 1]) + tables[|tables| - 1]
  }

  /** The flattened rows are exactly the rows of the tables. */
  lemma {:induction false} AllRowsMembers(tables: seq<seq<Row>>)
    ensures forall t, i :: 0 <= t < |tables| && 0 <= i < |tables[t]| ==> tables[t][i] in AllRows(tables)
    ensures forall r :: r in AllRows(tables) ==> exists t :: 0 <= t < |tables| && r in tables[t]
  {
    if tables != [] {
      AllRowsMembers(tables[..|tables| - 1]);
      assert forall t :: 0 <= t < |tables| - 1 ==> tables[..|tables| - 1][t] == tables[t];
    }
  }

  /** Every `td` of the given rows, in document order. */
  function AllCells(rows: seq<Row>): seq<Cell> {
    if rows == [] then [] else AllCells(rows[..|rows| - 1]) + rows[|rows| - 1]
  }

  /** The flattened cells are exactly the cells of the rows. */
  lemma {:induction false} AllCellsMembers(rows: seq<Row>)
    ensures forall r, i :: 0 <= r < |rows| && 0 <= i < |rows[r]| ==> rows[r][i] in AllCells(rows)
    ensures forall c :: c in AllCells(rows) ==> exists r :: 0 <= r < |rows| && c in rows[r]
  {
    if rows != [] {
      AllCellsMembers(rows[..|rows| - 1]);
      assert forall r :: 0 <= r < |rows| - 1 ==> rows[..|rows| - 1][r] == rows[r];
    }
  }

  /** The test inside `find_td_by_partial_header`: `header_substring in tag["headers"]`.
      BeautifulSoup splits `headers` into tokens, so this is token membership. */
  predicate HeaderMatches(c: Cell, key: string) {
    key in c.headers
  }

  /** `cells[i]` is the first cell that matches `key`. */
  predicate FirstMatchAt(cells: seq<Cell>, key: string, i: int) {
    && 0 <= i < |cells|
    && HeaderMatches(cells[i], key)
    && forall j :: 0 <= j < i ==> !HeaderMatches(cells[j], key)
  }

  /** `soup.find(...)` with that test: the first matching cell in document order. */
  function FirstHeaderCell(cells: seq<Cell>, key: string): Option<Cell> {
    if cells == [] then None
    else if HeaderMatches(cells[0], key) then Some(cells[0])
    else FirstHeaderCell(cells[1..], key)
  }

  /** The search finds nothing exactly when no cell matches, and otherwise finds the first
      match. */
  lemma {:induction false} FirstHeaderCellFinds(cells: seq<Cell>, key: string)
    ensures FirstHeaderCell(cells, key).None? <==> forall i :: 0 <= i < |cells| ==> !HeaderMatches(cells[i], key)
    ensures FirstHeaderCell(cells, key).Some? ==>
      exists i :: FirstMatchAt(cells, key, i) && cells[i] == FirstHeaderCell(cells, key).value
  {
    if cells != [] && !HeaderMatches(cells[0], key) {
      FirstHeaderCellFinds(cells[1..], key);
      assert forall i :: 0 < i < |cells| ==> cells[1..][i - 1] == cells[i];
      if FirstHeaderCell(cells, key).Some? {
        var i :| FirstMatchAt(cells[1..], key, i) && cells[1..][i] == FirstHeaderCell(cells, key).value;
        assert FirstMatchAt(cells, key, i + 1);
      }
    } else if cells != [] {
      assert FirstMatchAt(cells, key, 0);
    }
  }

  /** `find_td_by_partial_header(soup, key)`. */
  function FindTdByPartialHeader(doc: Document, key: string): Option<Cell> {
    FirstHeaderCell(AllCells(AllRows(doc.tables)), key)
  }

  /** `cell.find("a")`, by its `href`. */
  function FirstAnchor(c: Cell): Option<string> {
    if c.anchors == [] then None else Some(c.anchors[0])
  }

  /** The `href`s that contain `marker`, in document order
      (`[a for a in soup.find_all("a", href=True) if marker in a["href"]]`). */
  function LinksContaining(hrefs: seq<string>, marker: string): seq<string> {
    if hrefs == [] then []
    else (if Contains(hrefs[0], marker) then [hrefs[0]] else []) + LinksContaining(hrefs[1..], marker)
  }

  /** A single link is kept exactly when it contains the marker. */
  lemma LinksContainingSingle(h: string, marker: string)
    ensures LinksContaining([h], marker) == if Contains(h, marker) then [h] else []
  {
    assert [h][1..] == [];
  }

  /** The filter of two lists end to end is their filters end to end. With
      `LinksContainingSingle` this fixes the result, order and repetitions included. */
  lemma {:induction false} LinksContainingAppend(a: seq<string>, b: seq<string>, marker: string)
    ensures LinksContaining(a + b, marker) == LinksContaining(a, marker) + LinksContaining(b, marker)
  {
    if a == [] {
      assert a + b == b;
    } else {
      LinksContainingAppend(a[1..], b, marker);
      var head := if Contains(a[0], marker) then [a[0]] else [];
      assert (a + b)[0] == a[0] && (a + b)[1..] == a[1..] + b;
      assert LinksContaining(a + b, marker) == head + LinksContaining(a[1..] + b, marker);
      assert LinksContaining(a, marker) == head + LinksContaining(a[1..], marker);
    }
  }

  /** The filter keeps exactly the links that contain the marker. */
  lemma {:induction false} LinksContainingFilters(hrefs: seq<string>, marker: string)
    ensures |LinksContaining(hrefs, marker)| <= |hrefs|
    ensures forall i :: 0 <= i < |LinksContaining(hrefs, marker)| ==> Contains(LinksContaining(hrefs, marker)[i], marker)
    ensures forall h :: h in LinksContaining(hrefs, marker) <==> h in hrefs && Contains(h, marker)
  {
    if hrefs != [] {
      LinksContainingFilters(hrefs[1..], marker);
      assert forall h :: h in hrefs <==> h == hrefs[0] || h in hrefs[1..];
    }
  }
}
