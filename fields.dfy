/** Reading one polling-district page: the three statistics, each looked up first by
    the cell's `headers` attribute and then by the label in the row's first cell, and
    the party-to-votes table (main.py, `extract_safe_stat`, `extract_stat_by_label`
    and the single-district half of `scrape_detailed_data`). */
module Fields {
  import opened Text
  import opened Html
  import opened Tallies

  const RegisteredKey := "sa2"
  const RegisteredLabel := "Voliči v seznamu"
  const EnvelopesKey := "sa3"
  const EnvelopesLabel := "Vydané obálky"
  const ValidKey := "sa6"
  const ValidLabel := "Platné hlasy"

  // ---------------------------------------------------------------------------
  // Fallback strategy: the first row whose first cell mentions the label.

  /** `len(tds) >= 2 and caption in tds[0].text`. */
  predicate LabelMatches(row: Row, caption: string) {
    |row| >= 2 && Contains(row[0].text, caption)
  }

  /** The first labelled row, if any, holds a number `int()` accepts in its second cell.
      Otherwise `extract_stat_by_label` raises, which this model excludes. */
  predicate LabelParses(rows: seq<Row>, caption: string) {
    rows == [] ||
    if LabelMatches(rows[0], caption) then ParsesAsNumber(rows[0][1].text)
    else LabelParses(rows[1..], caption)
  }

  /** What `extract_stat_by_label` returns. */
  function StatByLabel(rows: seq<Row>, caption: string): nat
    requires LabelParses(rows, caption)
  {
    if rows == [] then 0
    else if LabelMatches(rows[0], caption) then NumberValue(rows[0][1].text)
    else StatByLabel(rows[1..], caption)
  }

  /** `rows[i]` is the first row that carries the label. */
  predicate FirstLabelledAt(rows: seq<Row>, caption: string, i: int) {
    && 0 <= i < |rows|
    && LabelMatches(rows[i], caption)
    && forall j :: 0 <= j < i ==> !LabelMatches(rows[j], caption)
  }

  /** The fallback reads the second cell of the first labelled row, and is 0 when no row
      carries the label. */
  lemma {:induction false} StatByLabelFirstMatch(rows: seq<Row>, caption: string)
    requires LabelParses(rows, caption)
    ensures forall i :: FirstLabelledAt(rows, caption, i) ==>
      ParsesAsNumber(rows[i][1].text) && StatByLabel(rows, caption) == NumberValue(rows[i][1].text)
    ensures (forall i :: 0 <= i < |rows| ==> !LabelMatches(rows[i], caption)) ==> StatByLabel(rows, caption) == 0
  {
    if rows != [] && !LabelMatches(rows[0], caption) {
      StatByLabelFirstMatch(rows[1..], caption);
      forall i | FirstLabelledAt(rows, caption, i)
        ensures ParsesAsNumber(rows[i][1].text) && StatByLabel(rows, caption) == NumberValue(rows[i][1].text)
      {
        assert rows[1..][i - 1] == rows[i];
        assert FirstLabelledAt(rows[1..], caption, i - 1);
      }
      if forall i :: 0 <= i < |rows| ==> !LabelMatches(rows[i], caption) {
        assert forall i :: 0 <= i < |rows| - 1 ==> rows[1..][i] == rows[i + 1];
      }
    }
  }

  /** `extract_stat_by_label`: a scan of the rows with an early return. */
  method ExtractStatByLabel(rows: seq<Row>, caption: string) returns (r: nat)
    requires LabelParses(rows, caption)
    ensures r == StatByLabel(rows, caption)
  {
    var i := 0;
    while i < |rows|
      invariant i <= |rows|
      invariant LabelParses(rows[i..], caption)
      invariant StatByLabel(rows[i..], caption) == StatByLabel(rows, caption)
    {
      var tds := rows[i];
      assert rows[i..][1..] == rows[i + 1..];
      if |tds| >= 2 && Contains(tds[0].text, caption) {
        r := NumberValue(tds[1].text);
        return;
      }
      i := i + 1;
    }
    r := 0;
  }

  // ---------------------------------------------------------------------------
  // Both strategies.

  /** The header strategy applies: a cell matches the key and its stripped text is not empty. */
  predicate HeaderHit(doc: Document, key: string) {
    var td := FindTdByPartialHeader(doc, key);
    td.Some? && Trim(td.value.text) != ""
  }

  /** Whichever strategy applies yields a number; otherwise `int()` raises. */
  predicate SafeStatParses(doc: Document, key: string, caption: string) {
    match FindTdByPartialHeader(doc, key)
    case Some(td) =>
      if Trim(td.text) != "" then ParsesAsNumber(td.text) else LabelParses(AllRows(doc.tables), caption)
    case None => LabelParses(AllRows(doc.tables), caption)
  }

  /** What `extract_safe_stat` returns. */
  function SafeStat(doc: Document, key: string, caption: string): nat
    requires SafeStatParses(doc, key, caption)
  {
    if HeaderHit(doc, key) then NumberValue(FindTdByPartialHeader(doc, key).value.text)
    else StatByLabel(AllRows(doc.tables), caption)
  }

  /** The cells `find_td_by_partial_header` searches, in document order. */
  function PageCells(doc: Document): seq<Cell> {
    AllCells(AllRows(doc.tables))
  }

  lemma FirstMatchUnique(cells: seq<Cell>, key: string, i: int, j: int)
    requires FirstMatchAt(cells, key, i) && FirstMatchAt(cells, key, j)
    ensures i == j
  {
  }

  /** The lookup in order: the first cell whose `headers` hold the key, when its text is
      not blank; else the second cell of the first row whose first cell holds the label;
      else 0. */
  lemma SafeStatStrategies(doc: Document, key: string, caption: string)
    requires SafeStatParses(doc, key, caption)
    ensures forall i :: FirstMatchAt(PageCells(doc), key, i) && Trim(PageCells(doc)[i].text) != "" ==>
      ParsesAsNumber(PageCells(doc)[i].text) && SafeStat(doc, key, caption) == NumberValue(PageCells(doc)[i].text)
    ensures !HeaderHit(doc, key) ==> forall i :: FirstLabelledAt(AllRows(doc.tables), caption, i) ==>
      ParsesAsNumber(AllRows(doc.tables)[i][1].text) && SafeStat(doc, key, caption) == NumberValue(AllRows(doc.tables)[i][1].text)
    ensures !HeaderHit(doc, key) && (forall i :: 0 <= i < |AllRows(doc.tables)| ==> !LabelMatches(AllRows(doc.tables)[i], caption)) ==>
      SafeStat(doc, key, caption) == 0
  {
    var cells := PageCells(doc);
    var td := FindTdByPartialHeader(doc, key);
    FirstHeaderCellFinds(cells, key);
    forall i | FirstMatchAt(cells, key, i)
      ensures td == Some(cells[i])
    {
      assert td.Some?;
      var j :| FirstMatchAt(cells, key, j) && cells[j] == td.value;
      FirstMatchUnique(cells, key, i, j);
    }
    if !HeaderHit(doc, key) {
      StatByLabelFirstMatch(AllRows(doc.tables), caption);
    }
  }

  /** `extract_safe_stat`. */
  method ExtractSafeStat(doc: Document, key: string, caption: string) returns (r: nat)
    requires SafeStatParses(doc, key, caption)
    ensures r == SafeStat(doc, key, caption)
  {
    var td := FindTdByPartialHeader(doc, key);
    if td.Some? && Trim(td.value.text) != "" {
      r := NumberValue(td.value.text);
    } else {
      r := ExtractStatByLabel(AllRows(doc.tables), caption);
    }
  }

  // ---------------------------------------------------------------------------
  // The party table of a polling-district page.

  /** A row with at least three cells, a non-blank party name in the second and a digit
      string in the third once stripped of separators. */
  predicate IsVoteRow(row: Row) {
    |row| >= 3 && Trim(row[1].text) != "" && IsDigits(NumberText(row[2].text))
  }

  function PartyOf(row: Row): string
    requires |row| >= 2
  {
    Trim(row[1].text)
  }

  function VotesOf(row: Row): nat
    requires IsVoteRow(row)
  {
    NumberValue(row[2].text)
  }

  /** `votes` after the vote loop of the single-district branch has seen `rows`. */
  function LeafVotes(rows: seq<Row>): Tally {
    if rows == [] then Empty
    else
      var t := LeafVotes(rows[..|rows| - 1]);
      var row := rows[|rows| - 1];
      if IsVoteRow(row) then t.Put(PartyOf(row), VotesOf(row)) else t
  }

  /** A later vote row with the same party name overrides an earlier one. */
  predicate LastVoteRowFor(rows: seq<Row>, i: int) {
    && 0 <= i < |rows|
    && IsVoteRow(rows[i])
    && forall j :: i < j < |rows| && IsVoteRow(rows[j]) ==> PartyOf(rows[j]) != PartyOf(rows[i])
  }

  /** `rows[i]` is a vote row for party `p`. */
  predicate VoteRowAt(rows: seq<Row>, i: int, p: string) {
    0 <= i < |rows| && IsVoteRow(rows[i]) && PartyOf(rows[i]) == p
  }

  /** The party names of the vote rows among `rows`. */
  function NamedParties(rows: seq<Row>): set<string> {
    if rows == [] then {}
    else
      var row := rows[|rows| - 1];
      NamedParties(rows[..|rows| - 1]) + if IsVoteRow(row) then {PartyOf(row)} else {}
  }

  lemma {:induction false} NamedPartiesAreVoteRows(rows: seq<Row>)
    ensures forall p :: p in NamedParties(rows) <==> exists i :: VoteRowAt(rows, i, p)
  {
    if rows != [] {
      var n := |rows| - 1;
      NamedPartiesAreVoteRows(rows[..n]);
      forall p | p in NamedParties(rows) ensures exists i :: VoteRowAt(rows, i, p) {
        if p in NamedParties(rows[..n]) {
          var i :| VoteRowAt(rows[..n], i, p);
          assert VoteRowAt(rows, i, p);
        } else {
          assert VoteRowAt(rows, n, p);
        }
      }
      forall i, p | VoteRowAt(rows, i, p) ensures p in NamedParties(rows) {
        if i < n {
          assert VoteRowAt(rows[..n], i, p);
        }
      }
    }
  }

  /** The district's tally holds exactly the parties named by vote rows, and so never the
      blank name. */
  lemma {:induction false} LeafVotesParties(rows: seq<Row>)
    ensures forall p :: p in LeafVotes(rows).counts <==> exists i :: VoteRowAt(rows, i, p)
    ensures "" !in LeafVotes(rows).counts
  {
    LeafVotesKeys(rows);
    NamedPartiesAreVoteRows(rows);
  }

  /** The district's tally is well formed: each party is listed once and has a count. */
  lemma {:induction false} LeafVotesValid(rows: seq<Row>)
    ensures LeafVotes(rows).Valid()
  {
    if rows != [] {
      var init := rows[..|rows| - 1];
      var row := rows[|rows| - 1];
      LeafVotesValid(init);
      if IsVoteRow(row) {
        PutSets(LeafVotes(init), PartyOf(row), VotesOf(row));
      }
    }
  }

  lemma {:induction false} LeafVotesKeys(rows: seq<Row>)
    ensures LeafVotes(rows).counts.Keys == NamedParties(rows)
  {
    if rows != [] {
      var init := rows[..|rows| - 1];
      var row := rows[|rows| - 1];
      LeafVotesKeys(init);
      LeafVotesValid(init);
      if IsVoteRow(row) {
        PutSets(LeafVotes(init), PartyOf(row), VotesOf(row));
      }
    }
  }

  /** The party names of the vote rows among `rows`, in row order, repeats included. */
  function VoteNames(rows: seq<Row>): seq<string> {
    if rows == [] then []
    else
      var row := rows[|rows| - 1];
      VoteNames(rows[..|rows| - 1]) + if IsVoteRow(row) then [PartyOf(row)] else []
  }

  /** `s` with every repeat of a name dropped, each name at its first position. */
  function FirstOccurrences(s: seq<string>): seq<string> {
    if s == [] then []
    else
      var init := s[..|s| - 1];
      FirstOccurrences(init) + if s[|s| - 1] in init then [] else [s[|s| - 1]]
  }

  lemma {:induction false} FirstOccurrencesMembers(s: seq<string>)
    ensures forall x :: x in FirstOccurrences(s) <==> x in s
  {
    if s != [] {
      var init := s[..|s| - 1];
      FirstOccurrencesMembers(init);
      assert s == init + [s[|s| - 1]];
    }
  }

  /** The district's parties stand in the order of their first vote row, which is the
      order `for party in votes` later visits them in. */
  lemma {:induction false} LeafVotesOrder(rows: seq<Row>)
    ensures LeafVotes(rows).keys == FirstOccurrences(VoteNames(rows))
  {
    if rows != [] {
      var init := rows[..|rows| - 1];
      var row := rows[|rows| - 1];
      LeafVotesOrder(init);
      LeafVotesValid(init);
      var names := VoteNames(init);
      FirstOccurrencesMembers(names);
      if IsVoteRow(row) {
        var p := PartyOf(row);
        var t := LeafVotes(init);
        PutSets(t, p, VotesOf(row));
        assert VoteNames(rows) == names + [p];
        assert (names + [p])[..|names|] == names;
        assert p in t.counts <==> p in names;
      } else {
        assert VoteNames(rows) == names;
      }
    }
  }

  /** Each party's count is the one in its last vote row: a later row with the same
      name overwrites the earlier count. */
  lemma LeafVotesLastRowWins(rows: seq<Row>)
    ensures forall i :: LastVoteRowFor(rows, i) ==> LeafVotes(rows).Get(PartyOf(rows[i])) == VotesOf(rows[i])
  {
    forall i | LastVoteRowFor(rows, i)
      ensures LeafVotes(rows).Get(PartyOf(rows[i])) == VotesOf(rows[i])
    {
      LastRowWinsAt(rows, i);
    }
  }

  lemma {:induction false} LastRowWinsAt(rows: seq<Row>, i: int)
    requires LastVoteRowFor(rows, i)
    ensures LeafVotes(rows).Get(PartyOf(rows[i])) == VotesOf(rows[i])
  {
    var n := |rows| - 1;
    var init := rows[..n];
    var row := rows[n];
    var t := LeafVotes(init);
    var p := PartyOf(rows[i]);
    LeafVotesValid(init);
    if i < n {
      assert LastVoteRowFor(init, i);
      LastRowWinsAt(init, i);
      assert init[i] == rows[i];
      assert t.Get(p) == VotesOf(rows[i]);
      if IsVoteRow(row) {
        assert PartyOf(row) != p;
        PutSets(t, PartyOf(row), VotesOf(row));
        assert LeafVotes(rows) == t.Put(PartyOf(row), VotesOf(row));
      } else {
        assert LeafVotes(rows) == t;
      }
    } else {
      PutSets(t, p, VotesOf(row));
      assert LeafVotes(rows) == t.Put(p, VotesOf(row));
    }
  }

  /** Each of the three statistics of a single-district page is readable (`int()` does
      not raise). */
  predicate LeafParses(doc: Document) {
    && SafeStatParses(doc, RegisteredKey, RegisteredLabel)
    && SafeStatParses(doc, EnvelopesKey, EnvelopesLabel)
    && SafeStatParses(doc, ValidKey, ValidLabel)
  }

}
