/** The listing page of a district: one row per municipality, each followed to its
    results page, written out as one data row per municipality with a party column for
    every party seen so far. */
module TableBuilder {
  import opened Text
  import opened Html
  import opened Tallies
  import opened Aggregator

  /** The five leading columns of the CSV header. */
  const FixedColumns: seq<string> := ["code", "location", "registered", "envelopes", "valid"]

  /** `[code, name, registered, envelopes, valid, *row_votes]`. */
  datatype OutRow = OutRow(code: string, location: string, registered: nat, envelopes: nat, valid: nat, votes: seq<nat>)

  /** The pair `(data, all_party_names)` that `extract_data` returns. */
  datatype Table = Table(data: seq<OutRow>, names: seq<string>)

  /** `extract_data` stops the program when the listing page has no table at all. */
  datatype Outcome = NoTables | Built(table: Table)

  /** `table.find_all("tr")[2:]`: the first two rows are headings. */
  function Body(table: seq<Row>): seq<Row> {
    if |table| <= 2 then [] else table[2..]
  }

  /** The rows the two nested loops visit, table after table. */
  function ListingRows(tables: seq<seq<Row>>): seq<Row> {
    if tables == [] then [] else ListingRows(tables[..|tables| - 1]) + Body(tables[|tables| - 1])
  }

  /** The visited rows are exactly the rows after the second of each table. */
  lemma {:induction false} ListingRowsMembers(tables: seq<seq<Row>>)
    ensures forall row :: row in ListingRows(tables) <==>
      exists t, i :: 0 <= t < |tables| && 2 <= i < |tables[t]| && tables[t][i] == row
  {
    if tables != [] {
      var init := tables[..|tables| - 1];
      var last := tables[|tables| - 1];
      ListingRowsMembers(init);
      assert forall t :: 0 <= t < |init| ==> init[t] == tables[t];
      forall row | row in ListingRows(tables)
        ensures exists t, i :: 0 <= t < |tables| && 2 <= i < |tables[t]| && tables[t][i] == row
      {
        if row !in ListingRows(init) {
          var i :| 0 <= i < |Body(last)| && Body(last)[i] == row;
          assert tables[|tables| - 1][i + 2] == row;
        }
      }
      forall row | exists t, i :: 0 <= t < |tables| && 2 <= i < |tables[t]| && tables[t][i] == row
        ensures row in ListingRows(tables)
      {
        var t, i :| 0 <= t < |tables| && 2 <= i < |tables[t]| && tables[t][i] == row;
        if t == |tables| - 1 {
          assert Body(last)[i - 2] == row;
        } else {
          assert init[t][i] == row;
        }
      }
    }
  }

  /** One more table adds its rows after the second at the end: tables are visited one
      after another, in page order. */
  lemma ListingRowsStep(tables: seq<seq<Row>>, n: nat)
    requires n < |tables|
    ensures ListingRows(tables[..n + 1]) == ListingRows(tables[..n]) + Body(tables[n])
  {
    assert tables[..n + 1][..n] == tables[..n];
  }

  // ---------------------------------------------------------------------------
  // One listing row.

  /** `columns[0].text.strip()`. */
  function Code(row: Row): string
    requires |row| >= 1
  {
    Trim(row[0].text)
  }

  /** `columns[1].text.strip()`. */
  function Location(row: Row): string
    requires |row| >= 2
  {
    Trim(row[1].text)
  }

  /** A municipality row: at least three cells and a code that is neither `-` nor
      anything but digits. */
  predicate IsListed(row: Row) {
    |row| >= 3 && Code(row) != "-" && IsDigits(Code(row))
  }

  /** `columns[-1].find("a")`, by its `href`. */
  function LinkOf(row: Row): Option<string>
    requires |row| >= 1
  {
    FirstAnchor(row[|row| - 1])
  }

  /** The results page of a municipality: the link appended to the fixed site address,
      whatever the link looks like. */
  function DetailUrl(href: string): string {
    SiteBase + href
  }

  /** A municipality link is always put under the site address, even one that is already
      absolute, where a district link would be followed as it is. */
  lemma DetailUrlAlwaysPrefixed(href: string)
    ensures StartsWith(DetailUrl(href), SiteBase)
    ensures DetailUrl(href)[|SiteBase|..] == href
    ensures StartsWith(href, "http") ==> DetailUrl(href) != ResolveDistrictUrl(href)
  {
    assert DetailUrl(href)[..|SiteBase|] == SiteBase;
  }

  /** The results page a municipality row links to has been fetched. */
  predicate Reachable(row: Row, pages: map<string, Fetched>) {
    IsListed(row) && LinkOf(row).Some? ==> DetailUrl(LinkOf(row).value) in pages
  }

  predicate Covered(rows: seq<Row>, pages: map<string, Fetched>) {
    forall row :: row in rows ==> Reachable(row, pages)
  }

  /** Each fetched page sits under the address it was fetched from and is well formed. */
  ghost predicate PagesValid(pages: map<string, Fetched>) {
    forall u :: u in pages ==> pages[u].url == u && Valid(pages[u])
  }

  /** The four values the row loop works with: `scrape_detailed_data` of the linked page,
      or `0, 0, 0, {}` for a row without a link. */
  function RowStats(row: Row, pages: map<string, Fetched>): Stats
    requires IsListed(row) && Reachable(row, pages) && PagesValid(pages)
  {
    match LinkOf(row)
    case None => NoStats
    case Some(href) => Aggregate(pages[DetailUrl(href)])
  }

  /** A municipality's vote tally is well formed. */
  lemma RowStatsValid(row: Row, pages: map<string, Fetched>)
    requires IsListed(row) && Reachable(row, pages) && PagesValid(pages)
    ensures RowStats(row, pages).votes.Valid()
  {
    if LinkOf(row).Some? {
      AggregateValid(pages[DetailUrl(LinkOf(row).value)]);
    }
  }

  // ---------------------------------------------------------------------------
  // Party columns.

  /** The two party names that never get a column. */
  predicate Skipped(party: string) {
    party == "" || party == "-"
  }

  predicate Clean(names: seq<string>) {
    forall i :: 0 <= i < |names| ==> !Skipped(names[i])
  }

  /** `all_party_names` after the loop `for party in votes` has seen `parties`. */
  function Discover(names: seq<string>, parties: seq<string>): seq<string> {
    if parties == [] then names
    else
      var known := Discover(names, parties[..|parties| - 1]);
      var party := parties[|parties| - 1];
      if party !in known && !Skipped(party) then known + [party] else known
  }

  /** The list only grows at its end, by parties it did not hold yet; afterwards it holds
      exactly its old names and the parties seen that are not skipped; it stays free of
      duplicates and of skipped names. */
  lemma {:induction false} DiscoverKeeps(names: seq<string>, parties: seq<string>)
    ensures names <= Discover(names, parties)
    ensures forall i :: |names| <= i < |Discover(names, parties)| ==>
      Discover(names, parties)[i] in parties && Discover(names, parties)[i] !in names
    ensures forall p :: p in Discover(names, parties) <==> p in names || (p in parties && !Skipped(p))
    ensures Distinct(names) ==> Distinct(Discover(names, parties))
    ensures Clean(names) ==> Clean(Discover(names, parties))
  {
    if parties != [] {
      var init := parties[..|parties| - 1];
      DiscoverKeeps(names, init);
      assert forall p :: p in parties <==> p in init || p == parties[|parties| - 1];
    }
  }

  /** `x` turns up in `parties` before `y` does. */
  predicate SeenBefore(parties: seq<string>, x: string, y: string) {
    exists a :: 0 <= a < |parties| && parties[a] == x && y !in parties[..a + 1]
  }

  /** The names the loop appends stand in the order in which they first turn up. */
  lemma {:induction false} DiscoverFirstSeen(names: seq<string>, parties: seq<string>)
    ensures forall i, j :: |names| <= i < j < |Discover(names, parties)| ==>
      SeenBefore(parties, Discover(names, parties)[i], Discover(names, parties)[j])
  {
    if parties != [] {
      var init := parties[..|parties| - 1];
      var last := parties[|parties| - 1];
      var known := Discover(names, init);
      var r := Discover(names, parties);
      DiscoverFirstSeen(names, init);
      DiscoverKeeps(names, init);
      forall i, j | |names| <= i < j < |r| ensures SeenBefore(parties, r[i], r[j]) {
        assert r[i] == known[i] && r[i] in init;
        var a :| 0 <= a < |init| && init[a] == r[i];
        assert init[..a + 1] == parties[..a + 1];
        if j < |known| {
          assert SeenBefore(init, known[i], known[j]);
          var b :| 0 <= b < |init| && init[b] == known[i] && known[j] !in init[..b + 1];
          assert init[..b + 1] == parties[..b + 1];
          assert parties[b] == r[i];
        } else {
          assert r[j] == last && last !in init;
          assert parties[a] == r[i];
        }
      }
    }
  }

  /** Running the loop over two dictionaries one after the other is running it over their
      keys end to end. */
  lemma {:induction false} DiscoverConcat(names: seq<string>, a: seq<string>, b: seq<string>)
    ensures Discover(Discover(names, a), b) == Discover(names, a + b)
  {
    if b == [] {
      assert a + b == a;
    } else {
      DiscoverConcat(names, a, b[..|b| - 1]);
      assert (a + b)[..|a + b| - 1] == a + b[..|b| - 1];
    }
  }

  /** `[votes.get(party, 0) for party in all_party_names]`. */
  function RowVotes(votes: Tally, names: seq<string>): seq<nat> {
    seq(|names|, i requires 0 <= i < |names| => votes.Get(names[i]))
  }

  // ---------------------------------------------------------------------------
  // The whole table.

  /** One municipality: its parties join the column list, then its row is appended,
      built against the column list as it now stands. */
  function Append(t: Table, code: string, location: string, s: Stats): Table {
    var names := Discover(t.names, s.votes.keys);
    Table(t.data + [OutRow(code, location, s.registered, s.envelopes, s.valid, RowVotes(s.votes, names))], names)
  }

  /** `(data, all_party_names)` after the row loop has seen `rows`. */
  function Build(rows: seq<Row>, pages: map<string, Fetched>): Table
    requires Covered(rows, pages) && PagesValid(pages)
  {
    if rows == [] then Table([], [])
    else
      var t := Build(rows[..|rows| - 1], pages);
      var row := rows[|rows| - 1];
      if IsListed(row) then Append(t, Code(row), Location(row), RowStats(row, pages)) else t
  }

  /** `extract_data(soup, base_url, session)` on a listing page, with the results pages
      already fetched. */
  function ExtractTable(doc: Document, pages: map<string, Fetched>): Outcome
    requires Covered(ListingRows(doc.tables), pages) && PagesValid(pages)
  {
    if doc.tables == [] then NoTables else Built(Build(ListingRows(doc.tables), pages))
  }

  /** The municipality rows among `rows`, in order. */
  function Listed(rows: seq<Row>): seq<Row> {
    if rows == [] then []
    else Listed(rows[..|rows| - 1]) + (if IsListed(rows[|rows| - 1]) then [rows[|rows| - 1]] else [])
  }

  /** The rows that are written out are exactly the municipality rows. */
  lemma {:induction false} ListedMembers(rows: seq<Row>)
    ensures forall row :: row in Listed(rows) <==> row in rows && IsListed(row)
  {
    if rows != [] {
      var init := rows[..|rows| - 1];
      ListedMembers(init);
      assert forall row :: row in rows <==> row in init || row == rows[|rows| - 1];
    }
  }

  /** `out` is the data row of municipality row `row`, whose page gave `s`, against the
      column list `names`: the code, the name and the three statistics of the page; as
      many party columns as there were names when the row was built, each holding the
      page's count for that party; and a column for every party the page names. */
  predicate RowMatches(out: OutRow, row: Row, s: Stats, names: seq<string>)
    requires |row| >= 2
  {
    && out.code == Code(row) && out.location == Location(row)
    && out.registered == s.registered && out.envelopes == s.envelopes && out.valid == s.valid
    && |out.votes| <= |names|
    && (forall k :: 0 <= k < |out.votes| ==> out.votes[k] == s.votes.Get(names[k]))
    && (forall p :: p in s.votes.keys && !Skipped(p) ==> p in names[..|out.votes|])
  }

  /** A row that matches against a column list still matches once the list grows. */
  lemma RowMatchesGrow(out: OutRow, row: Row, s: Stats, names: seq<string>, more: seq<string>)
    requires |row| >= 2 && RowMatches(out, row, s, names) && names <= more
    ensures RowMatches(out, row, s, more)
  {
    assert more[..|out.votes|] == names[..|out.votes|];
  }

  /** There is one data row per municipality row, in order, and each is that
      municipality's row against the final column list. */
  lemma {:induction false} BuildData(rows: seq<Row>, pages: map<string, Fetched>)
    requires Covered(rows, pages) && PagesValid(pages)
    ensures |Build(rows, pages).data| == |Listed(rows)|
    ensures forall i :: 0 <= i < |Listed(rows)| ==> IsListed(Listed(rows)[i]) && Listed(rows)[i] in rows
    ensures forall i :: 0 <= i < |Listed(rows)| ==>
      RowMatches(Build(rows, pages).data[i], Listed(rows)[i], RowStats(Listed(rows)[i], pages), Build(rows, pages).names)
  {
    ListedMembers(rows);
    if rows != [] {
      var init := rows[..|rows| - 1];
      var row := rows[|rows| - 1];
      BuildData(init, pages);
      var t0 := Build(init, pages);
      var ms0 := Listed(init);
      var t := Build(rows, pages);
      var ms := Listed(rows);
      if IsListed(row) {
        var s := RowStats(row, pages);
        DiscoverKeeps(t0.names, s.votes.keys);
        assert t == Append(t0, Code(row), Location(row), s);
        assert ms == ms0 + [row];
        forall i | 0 <= i < |ms|
          ensures RowMatches(t.data[i], ms[i], RowStats(ms[i], pages), t.names)
        {
          if i < |ms0| {
            assert ms[i] == ms0[i] && t.data[i] == t0.data[i];
            RowMatchesGrow(t0.data[i], ms0[i], RowStats(ms0[i], pages), t0.names, t.names);
          } else {
            assert t.names[..|t.data[i].votes|] == t.names;
          }
        }
      } else {
        assert ms == ms0;
      }
    }
  }

  /** The column list holds no name twice and never `""` or `"-"`; data rows never get
      shorter along the table, and the last one is exactly as wide as the column list. */
  lemma {:induction false} BuildWidths(rows: seq<Row>, pages: map<string, Fetched>)
    requires Covered(rows, pages) && PagesValid(pages)
    ensures Distinct(Build(rows, pages).names) && Clean(Build(rows, pages).names)
    ensures forall i, j :: 0 <= i <= j < |Build(rows, pages).data| ==>
      |Build(rows, pages).data[i].votes| <= |Build(rows, pages).data[j].votes|
    ensures |Build(rows, pages).names| ==
      if Build(rows, pages).data == [] then 0 else |Build(rows, pages).data[|Build(rows, pages).data| - 1].votes|
  {
    if rows != [] {
      var init := rows[..|rows| - 1];
      var row := rows[|rows| - 1];
      BuildWidths(init, pages);
      if IsListed(row) {
        var t0 := Build(init, pages);
        var s := RowStats(row, pages);
        DiscoverKeeps(t0.names, s.votes.keys);
        var t := Build(rows, pages);
        assert t == Append(t0, Code(row), Location(row), s);
        assert forall i :: 0 <= i < |t0.data| ==> t.data[i] == t0.data[i];
      }
    }
  }

  /** Both lists only ever grow at their ends: what the loop had built after the first
      `k` rows is a prefix of what it builds in the end. */
  lemma {:induction false} BuildGrows(rows: seq<Row>, pages: map<string, Fetched>, k: nat)
    requires Covered(rows, pages) && PagesValid(pages) && k <= |rows|
    ensures Build(rows[..k], pages).names <= Build(rows, pages).names
    ensures Build(rows[..k], pages).data <= Build(rows, pages).data
  {
    if k == |rows| {
      assert rows[..k] == rows;
    } else {
      var init := rows[..|rows| - 1];
      var row := rows[|rows| - 1];
      BuildGrows(init, pages, k);
      assert init[..k] == rows[..k];
      if IsListed(row) {
        var t0 := Build(init, pages);
        DiscoverKeeps(t0.names, RowStats(row, pages).votes.keys);
      }
    }
  }

  /** The keys of every municipality's tally, municipality after municipality. */
  function PartyStream(rows: seq<Row>, pages: map<string, Fetched>): seq<string>
    requires Covered(rows, pages) && PagesValid(pages)
  {
    if rows == [] then []
    else
      var row := rows[|rows| - 1];
      PartyStream(rows[..|rows| - 1], pages) + (if IsListed(row) then RowStats(row, pages).votes.keys else [])
  }

  /** The final column list is the loop over all the municipalities' parties at once:
      it names exactly the parties seen that are not skipped, each once, in the order in
      which they first turned up. */
  lemma {:induction false} BuildNames(rows: seq<Row>, pages: map<string, Fetched>)
    requires Covered(rows, pages) && PagesValid(pages)
    ensures Build(rows, pages).names == Discover([], PartyStream(rows, pages))
  {
    if rows != [] {
      var init := rows[..|rows| - 1];
      var row := rows[|rows| - 1];
      BuildNames(init, pages);
      if IsListed(row) {
        DiscoverConcat([], PartyStream(init, pages), RowStats(row, pages).votes.keys);
      } else {
        assert PartyStream(rows, pages) == PartyStream(init, pages);
      }
    }
  }

  lemma FirstSeenOrder(rows: seq<Row>, pages: map<string, Fetched>)
    requires Covered(rows, pages) && PagesValid(pages)
    ensures forall p :: p in Build(rows, pages).names <==> p in PartyStream(rows, pages) && !Skipped(p)
    ensures forall i, j :: 0 <= i < j < |Build(rows, pages).names| ==>
      SeenBefore(PartyStream(rows, pages), Build(rows, pages).names[i], Build(rows, pages).names[j])
  {
    BuildNames(rows, pages);
    DiscoverKeeps([], PartyStream(rows, pages));
    DiscoverFirstSeen([], PartyStream(rows, pages));
  }

  /** A municipality row without a link adds a row of zeros and no party. */
  lemma NoLinkRow(rows: seq<Row>, row: Row, pages: map<string, Fetched>)
    requires Covered(rows + [row], pages) && PagesValid(pages)
    requires IsListed(row) && LinkOf(row).None?
    ensures Covered(rows, pages)
    ensures Build(rows + [row], pages).names == Build(rows, pages).names
    ensures Build(rows + [row], pages).data ==
      Build(rows, pages).data + [OutRow(Code(row), Location(row), 0, 0, 0, Zeros(|Build(rows, pages).names|))]
  {
    assert (rows + [row])[..|rows|] == rows;
    var t := Build(rows, pages);
    assert RowVotes(Empty, t.names) == Zeros(|t.names|);
  }

  function Zeros(n: nat): seq<nat> {
    seq(n, _ => 0)
  }

  // ---------------------------------------------------------------------------
  // The CSV header.

  /** `["code", "location", "registered", "envelopes", "valid"] + party_names`. */
  function Header(names: seq<string>): seq<string> {
    FixedColumns + names
  }

  /** Every vote cell of the table sits under the header cell of its party, and no row is
      wider than the header. */
  lemma HeaderLabelsVotes(rows: seq<Row>, pages: map<string, Fetched>)
    requires Covered(rows, pages) && PagesValid(pages)
    ensures |Build(rows, pages).data| == |Listed(rows)|
    ensures forall i :: 0 <= i < |Listed(rows)| ==> IsListed(Listed(rows)[i]) && Listed(rows)[i] in rows
    ensures forall i :: 0 <= i < |Listed(rows)| ==>
      |FixedColumns| + |Build(rows, pages).data[i].votes| <= |Header(Build(rows, pages).names)|
    ensures forall i, k :: 0 <= i < |Listed(rows)| && 0 <= k < |Build(rows, pages).data[i].votes| ==>
      Build(rows, pages).data[i].votes[k] ==
        RowStats(Listed(rows)[i], pages).votes.Get(Header(Build(rows, pages).names)[|FixedColumns| + k])
  {
    BuildData(rows, pages);
  }

  // ---------------------------------------------------------------------------
  // Rows written before a party first turns up have no cell for it.

  /** A row keeps the width it was written with: after the first `k` listing rows, the
      last row written has as many vote cells as there were names then, and it ends up
      shorter than the header exactly when a later municipality adds a party. */
  lemma RaggedRows(rows: seq<Row>, pages: map<string, Fetched>, k: nat)
    requires Covered(rows, pages) && PagesValid(pages) && k <= |rows|
    requires Build(rows[..k], pages).data != []
    ensures |Build(rows[..k], pages).data| <= |Build(rows, pages).data|
    ensures |Build(rows, pages).data[|Build(rows[..k], pages).data| - 1].votes| == |Build(rows[..k], pages).names|
    ensures |FixedColumns| + |Build(rows, pages).data[|Build(rows[..k], pages).data| - 1].votes| < |Header(Build(rows, pages).names)|
      <==> |Build(rows[..k], pages).names| < |Build(rows, pages).names|
  {
    BuildWidths(rows[..k], pages);
    BuildGrows(rows, pages, k);
    var n := |Build(rows[..k], pages).data|;
    assert Build(rows, pages).data[n - 1] == Build(rows[..k], pages).data[n - 1];
  }

  /** Two municipalities, the second naming a party the first does not: the first row
      has one vote cell under a header of two parties. */
  lemma RaggedRowsExample()
    ensures
      var first := Stats(10, 8, 8, Tally(["A"], map["A" := 8]));
      var second := Stats(20, 15, 15, Tally(["A", "B"], map["A" := 5, "B" := 10]));
      var t := Append(Append(Table([], []), "1", "X", first), "2", "Y", second);
      && |t.data[0].votes| == 1
      && |t.data[1].votes| == 2
      && |Header(t.names)| == |FixedColumns| + 2
  {
    var first := Stats(10, 8, 8, Tally(["A"], map["A" := 8]));
    var second := Stats(20, 15, 15, Tally(["A", "B"], map["A" := 5, "B" := 10]));
    assert ["A"][..0] == [] && ["A", "B"][..1] == ["A"];
    assert Discover([], ["A"]) == ["A"];
    assert Discover(["A"], ["A"]) == ["A"];
    assert Discover(["A"], ["A", "B"]) == ["A", "B"];
  }

  /** A short row filled out with zeros to the given width. */
  function PadRow(out: OutRow, width: nat): OutRow
    requires |out.votes| <= width
  {
    out.(votes := out.votes + Zeros(width - |out.votes|))
  }

  /** Every data row filled out to the width of the header. */
  function Padded(t: Table): seq<OutRow>
    requires forall i :: 0 <= i < |t.data| ==> |t.data[i].votes| <= |t.names|
  {
    seq(|t.data|, i requires 0 <= i < |t.data| => PadRow(t.data[i], |t.names|))
  }

  /** Filled out with zeros, every row is as wide as the header and each of its party
      cells holds that municipality's count for the party: a cell missing from a short
      row stands for a count of zero. */
  lemma PaddedComplete(rows: seq<Row>, pages: map<string, Fetched>)
    requires Covered(rows, pages) && PagesValid(pages)
    ensures |Build(rows, pages).data| == |Listed(rows)|
    ensures forall i :: 0 <= i < |Listed(rows)| ==> IsListed(Listed(rows)[i]) && Listed(rows)[i] in rows
    ensures forall i :: 0 <= i < |Build(rows, pages).data| ==>
      |Build(rows, pages).data[i].votes| <= |Build(rows, pages).names|
    ensures forall i :: 0 <= i < |Listed(rows)| ==>
      |Padded(Build(rows, pages))[i].votes| == |Build(rows, pages).names|
    ensures forall i, k :: 0 <= i < |Listed(rows)| && 0 <= k < |Build(rows, pages).names| ==>
      Padded(Build(rows, pages))[i].votes[k] == RowStats(Listed(rows)[i], pages).votes.Get(Build(rows, pages).names[k])
  {
    BuildData(rows, pages);
    BuildWidths(rows, pages);
    var t := Build(rows, pages);
    var ms := Listed(rows);
    forall i, k | 0 <= i < |ms| && 0 <= k < |t.names|
      ensures Padded(t)[i].votes[k] == RowStats(ms[i], pages).votes.Get(t.names[k])
    {
      var s := RowStats(ms[i], pages);
      var w := |t.data[i].votes|;
      assert RowMatches(t.data[i], ms[i], s, t.names);
      if k >= w {
        RowStatsValid(ms[i], pages);
        assert t.names[k] !in t.names[..w];
        assert t.names[k] !in s.votes.keys;
      }
    }
  }

  // ---------------------------------------------------------------------------
  // The loops.

  /** The loop `for party in votes` that extends `all_party_names`. */
  method DiscoverParties(names: seq<string>, parties: seq<string>) returns (r: seq<string>)
    ensures r == Discover(names, parties)
  {
    r := names;
    for j := 0 to |parties|
      invariant r == Discover(names, parties[..j])
    {
      var party := parties[j];
      assert parties[..j + 1][..j] == parties[..j];
      if party !in r && party != "-" && party != "" {
        r := r + [party];
      }
    }
    assert parties[..|parties|] == parties;
  }

  lemma BuildSnoc(rows: seq<Row>, row: Row, pages: map<string, Fetched>)
    requires Covered(rows + [row], pages) && PagesValid(pages)
    ensures Covered(rows, pages)
    ensures Build(rows + [row], pages) ==
      if IsListed(row) then Append(Build(rows, pages), Code(row), Location(row), RowStats(row, pages))
      else Build(rows, pages)
  {
    assert (rows + [row])[..|rows|] == rows;
  }

  lemma {:induction false} CoveredPrefix(tables: seq<seq<Row>>, pages: map<string, Fetched>, n: nat)
    requires n <= |tables| && Covered(ListingRows(tables), pages)
    ensures Covered(ListingRows(tables[..n]), pages)
    decreases |tables| - n
  {
    if n == |tables| {
      assert tables[..n] == tables;
    } else {
      CoveredPrefix(tables, pages, n + 1);
      ListingRowsStep(tables, n);
    }
  }

  /** `extract_data(soup, base_url, session)`, with the results pages already fetched. */
  method ExtractData(doc: Document, pages: map<string, Fetched>) returns (r: Outcome)
    requires Covered(ListingRows(doc.tables), pages) && PagesValid(pages)
    ensures r == ExtractTable(doc, pages)
  {
    if |doc.tables| == 0 {
      return NoTables;
    }
    var data: seq<OutRow> := [];
    var names: seq<string> := [];
    for ti := 0 to |doc.tables|
      invariant Covered(ListingRows(doc.tables[..ti]), pages)
      invariant Table(data, names) == Build(ListingRows(doc.tables[..ti]), pages)
    {
      ListingRowsStep(doc.tables, ti);
      CoveredPrefix(doc.tables, pages, ti + 1);
      data, names := AddTable(doc.tables[ti], ListingRows(doc.tables[..ti]), pages, data, names);
    }
    assert doc.tables[..|doc.tables|] == doc.tables;
    return Built(Table(data, names));
  }

  /** The inner loop of `extract_data`: the rows of one table after its two heading rows. */
  method AddTable(table: seq<Row>, before: seq<Row>, pages: map<string, Fetched>,
                  data0: seq<OutRow>, names0: seq<string>)
    returns (data: seq<OutRow>, names: seq<string>)
    requires Covered(before + Body(table), pages) && PagesValid(pages)
    requires Table(data0, names0) == Build(before, pages)
    ensures Table(data, names) == Build(before + Body(table), pages)
  {
    data, names := data0, names0;
    var rows := Body(table);
    assert before + rows[..0] == before;
    for ri := 0 to |rows|
      invariant Table(data, names) == Build(before + rows[..ri], pages)
    {
      var columns := rows[ri];
      assert before + rows[..ri + 1] == (before + rows[..ri]) + [columns];
      assert columns in before + rows;
      BuildSnoc(before + rows[..ri], columns, pages);
      if |columns| < 3 {
        continue;
      }
      var code := Trim(columns[0].text);
      var name := Trim(columns[1].text);
      if code == "-" || !IsDigits(code) {
        continue;
      }
      var link := FirstAnchor(columns[|columns| - 1]);
      var registered, envelopes, valid, votes;
      if link.Some? {
        var fullUrl := SiteBase + link.value;
        var s := ScrapeDetailedData(pages[fullUrl]);
        registered, envelopes, valid, votes := s.registered, s.envelopes, s.valid, s.votes;
        names := DiscoverParties(names, votes.keys);
      } else {
        registered, envelopes, valid, votes := 0, 0, 0, Empty;
      }
      var rowVotes := RowVotes(votes, names);
      data := data + [OutRow(code, name, registered, envelopes, valid, rowVotes)];
    }
    assert rows[..|rows|] == rows;
  }
}
