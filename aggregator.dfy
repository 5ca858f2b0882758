/** `scrape_detailed_data`: a results page whose URL contains "ps33" is a municipality
    made of several polling districts, and its statistics are the sums over the pages its
    district links lead to; any other page is a single polling district, read directly. */
module Aggregator {
  import opened Text
  import opened Html
  import opened Tallies
  import opened Fields

  const SiteBase := "https://www.volby.cz/pls/ps2017nss/"
  const CompositeMarker := "ps33"
  const DistrictMarker := "xokrsek="

  /** The four values `scrape_detailed_data` returns: registered voters, issued envelopes,
      valid votes and the votes per party. */
  datatype Stats = Stats(registered: nat, envelopes: nat, valid: nat, votes: Tally) {

    /** One column of the statistics. */
    function Value(c: Column): nat {
      match c
      case Registered => registered
      case Envelopes => envelopes
      case ValidVotes => valid
      case Party(name) => votes.Get(name)
    }
  }

  /** The three totals and, for each party name, that party's count. */
  datatype Column = Registered | Envelopes | ValidVotes | Party(name: string)

  /** `0, 0, 0, {}`. */
  const NoStats := Stats(0, 0, 0, Empty)

  /** `"ps33" in url`. */
  predicate IsComposite(url: string) {
    Contains(url, CompositeMarker)
  }

  /** A district link as `scrape_detailed_data` follows it: absolute links as they are,
      relative ones under the site base. */
  function ResolveDistrictUrl(href: string): string {
    if StartsWith(href, "http") then href else SiteBase + href
  }

  /** Every district URL is absolute and ends with its link; a link is followed as it is
      exactly when it is already absolute, so resolving twice changes nothing. */
  lemma ResolveDistrictUrlAbsolute(href: string)
    ensures StartsWith(ResolveDistrictUrl(href), "http")
    ensures ResolveDistrictUrl(href) == href <==> StartsWith(href, "http")
    ensures |href| <= |ResolveDistrictUrl(href)|
    ensures ResolveDistrictUrl(href)[|ResolveDistrictUrl(href)| - |href|..] == href
    ensures ResolveDistrictUrl(ResolveDistrictUrl(href)) == ResolveDistrictUrl(href)
  {
    if !StartsWith(href, "http") {
      var r := SiteBase + href;
      assert r[..4] == SiteBase[..4] == "http";
      assert r[|r| - |href|..] == href;
    }
  }

  /** The links of a municipality page that select a polling district. */
  function DistrictLinks(doc: Document): seq<string> {
    LinksContaining(doc.hrefs, DistrictMarker)
  }

  /** A page as `get_soup` returned it for `url` and, below it, the pages fetched while
      following its district links. */
  datatype Fetched = Fetched(url: string, doc: Document, children: seq<Fetched>)

  /** The fetched tree is what the scraper would fetch: a composite page has one child per
      district link, in link order, each fetched from the resolved link; a single-district
      page has no children and readable statistics. */
  ghost predicate Valid(f: Fetched) {
    if IsComposite(f.url) then
      && |f.children| == |DistrictLinks(f.doc)|
      && (forall i :: 0 <= i < |f.children| ==> f.children[i].url == ResolveDistrictUrl(DistrictLinks(f.doc)[i]))
      && (forall i :: 0 <= i < |f.children| ==> Valid(f.children[i]))
    else
      f.children == [] && LeafParses(f.doc)
  }

  /** Each of the pages is well formed. */
  ghost predicate AllValid(pages: seq<Fetched>) {
    forall i :: 0 <= i < |pages| ==> Valid(pages[i])
  }

  /** The statistics of a single-district page. */
  function LeafStats(doc: Document): Stats
    requires LeafParses(doc)
  {
    Stats(
      SafeStat(doc, RegisteredKey, RegisteredLabel),
      SafeStat(doc, EnvelopesKey, EnvelopesLabel),
      SafeStat(doc, ValidKey, ValidLabel),
      LeafVotes(AllRows(doc.tables)))
  }

  /** One step of the composite loop: totals added, tallies merged. */
  function Add(total: Stats, s: Stats): Stats {
    Stats(total.registered + s.registered, total.envelopes + s.envelopes, total.valid + s.valid,
          Merge(total.votes, s.votes))
  }

  /** The composite loop's totals over the given district statistics, in order. */
  function Sums(ss: seq<Stats>): Stats {
    if ss == [] then NoStats else Add(Sums(ss[..|ss| - 1]), ss[|ss| - 1])
  }

  /** What `scrape_detailed_data` returns for the fetched page `f`. */
  function Aggregate(f: Fetched): Stats
    requires Valid(f)
    decreases f, 1
  {
    if IsComposite(f.url) then Sums(Districts(f.children)) else LeafStats(f.doc)
  }

  /** The statistics of each of the district pages, in link order. */
  function Districts(pages: seq<Fetched>): seq<Stats>
    requires AllValid(pages)
    decreases pages, 0
  {
    seq(|pages|, i requires 0 <= i < |pages| && Valid(pages[i]) => Aggregate(pages[i]))
  }

  /** Every tally the scraper returns is well formed: each party listed once. */
  lemma {:induction false} AggregateValid(f: Fetched)
    requires Valid(f)
    ensures Aggregate(f).votes.Valid()
    decreases f
  {
    if IsComposite(f.url) {
      var ss := Districts(f.children);
      forall i | 0 <= i < |ss| ensures ss[i].votes.Valid() {
        AggregateValid(f.children[i]);
      }
      SumsValid(ss);
    } else {
      LeafVotesValid(AllRows(f.doc.tables));
    }
  }

  /** Adding well-formed statistics keeps the tally well formed. */
  lemma AddValid(total: Stats, s: Stats)
    requires total.votes.Valid() && s.votes.Valid()
    ensures Add(total, s).votes.Valid()
  {
    MergeAddsCounts(total.votes, s.votes);
  }

  /** Adding statistics adds every column. */
  lemma AddValue(total: Stats, s: Stats, c: Column)
    requires total.votes.Valid() && s.votes.Valid()
    ensures Add(total, s).Value(c) == total.Value(c) + s.Value(c)
  {
    if c.Party? {
      MergeAddsCounts(total.votes, s.votes);
    }
  }

  /** Adding statistics unites the parties. */
  lemma AddParties(total: Stats, s: Stats)
    requires total.votes.Valid() && s.votes.Valid()
    ensures Add(total, s).votes.counts.Keys == total.votes.counts.Keys + s.votes.counts.Keys
  {
    MergeAddsCounts(total.votes, s.votes);
  }

  /** Each tally well formed. */
  ghost predicate TalliesValid(ss: seq<Stats>) {
    forall i :: 0 <= i < |ss| ==> ss[i].votes.Valid()
  }

  lemma {:induction false} SumsValid(ss: seq<Stats>)
    requires TalliesValid(ss)
    ensures Sums(ss).votes.Valid()
  {
    if ss != [] {
      SumsValid(ss[..|ss| - 1]);
      AddValid(Sums(ss[..|ss| - 1]), ss[|ss| - 1]);
    }
  }

  function Sum(xs: seq<nat>): nat {
    if xs == [] then 0 else Sum(xs[..|xs| - 1]) + xs[|xs| - 1]
  }

  /** Column `c` of each district, in order. */
  function ColumnOf(ss: seq<Stats>, c: Column): seq<nat> {
    seq(|ss|, i requires 0 <= i < |ss| => ss[i].Value(c))
  }

  lemma {:induction false} SumsColumn(ss: seq<Stats>, c: Column)
    requires TalliesValid(ss)
    ensures Sums(ss).Value(c) == Sum(ColumnOf(ss, c))
  {
    if ss != [] {
      var init := ss[..|ss| - 1];
      SumsColumn(init, c);
      SumsValid(init);
      AddValue(Sums(init), ss[|ss| - 1], c);
      assert ColumnOf(ss, c)[..|ss| - 1] == ColumnOf(init, c);
    }
  }

  /** The parties of the given districts. */
  function PartiesOf(ss: seq<Stats>): set<string> {
    if ss == [] then {} else PartiesOf(ss[..|ss| - 1]) + ss[|ss| - 1].votes.counts.Keys
  }

  lemma {:induction false} SumsParties(ss: seq<Stats>)
    requires TalliesValid(ss)
    ensures Sums(ss).votes.counts.Keys == PartiesOf(ss)
  {
    if ss != [] {
      var init := ss[..|ss| - 1];
      SumsParties(init);
      SumsValid(init);
      AddParties(Sums(init), ss[|ss| - 1]);
    }
  }

  lemma {:induction false} PartiesOfAny(ss: seq<Stats>, p: string)
    ensures p in PartiesOf(ss) <==> exists i :: 0 <= i < |ss| && p in ss[i].votes.counts
  {
    if ss != [] {
      var init := ss[..|ss| - 1];
      PartiesOfAny(init, p);
      if p in PartiesOf(init) {
        var i :| 0 <= i < |init| && p in init[i].votes.counts;
        assert ss[i] == init[i];
      }
      if exists i :: 0 <= i < |ss| && p in ss[i].votes.counts {
        var i :| 0 <= i < |ss| && p in ss[i].votes.counts;
        if i < |init| {
          assert init[i] == ss[i];
        }
      }
    }
  }

  /** The district statistics of a municipality page are well formed. */
  lemma DistrictsValid(f: Fetched)
    requires Valid(f) && IsComposite(f.url)
    ensures TalliesValid(Districts(f.children))
  {
    forall i | 0 <= i < |f.children| ensures Aggregate(f.children[i]).votes.Valid() {
      AggregateValid(f.children[i]);
    }
  }

  /** A multi-district municipality's registered voters, envelopes, valid votes and party
      counts are the sums over its districts in link order, a district without the party
      counting 0. */
  lemma CompositeIsSumOfDistricts(f: Fetched)
    requires Valid(f) && IsComposite(f.url)
    ensures |Districts(f.children)| == |f.children|
    ensures forall i :: 0 <= i < |f.children| ==> Districts(f.children)[i] == Aggregate(f.children[i])
    ensures forall c :: Aggregate(f).Value(c) == Sum(ColumnOf(Districts(f.children), c))
  {
    DistrictsValid(f);
    forall c ensures Aggregate(f).Value(c) == Sum(ColumnOf(Districts(f.children), c)) {
      SumsColumn(Districts(f.children), c);
    }
  }

  /** The parties of a multi-district municipality are those of any of its districts. */
  lemma CompositePartiesOfDistricts(f: Fetched)
    requires Valid(f) && IsComposite(f.url)
    ensures forall p :: p in Aggregate(f).votes.counts <==>
      exists i :: 0 <= i < |f.children| && p in Aggregate(f.children[i]).votes.counts
  {
    var ss := Districts(f.children);
    DistrictsValid(f);
    SumsParties(ss);
    forall p ensures p in PartiesOf(ss) <==>
      exists i :: 0 <= i < |f.children| && p in Aggregate(f.children[i]).votes.counts
    {
      PartiesOfAny(ss, p);
      if exists i :: 0 <= i < |ss| && p in ss[i].votes.counts {
        var i :| 0 <= i < |ss| && p in ss[i].votes.counts;
        assert p in Aggregate(f.children[i]).votes.counts;
      }
      if exists i :: 0 <= i < |f.children| && p in Aggregate(f.children[i]).votes.counts {
        var i :| 0 <= i < |f.children| && p in Aggregate(f.children[i]).votes.counts;
        assert p in ss[i].votes.counts;
      }
    }
  }

  /** The statistics of a single-district page: its parties are exactly those named by
      vote rows, in the order of their first vote row, each with the count of its last
      vote row; and each statistic is the number in its header cell whenever that cell's
      text is not blank. */
  lemma LeafStatsRead(doc: Document)
    requires LeafParses(doc)
    ensures forall p :: p in LeafStats(doc).votes.counts <==> exists i :: VoteRowAt(AllRows(doc.tables), i, p)
    ensures LeafStats(doc).votes.keys == FirstOccurrences(VoteNames(AllRows(doc.tables)))
    ensures forall i :: LastVoteRowFor(AllRows(doc.tables), i) ==>
      LeafStats(doc).votes.Get(PartyOf(AllRows(doc.tables)[i])) == VotesOf(AllRows(doc.tables)[i])
    ensures forall i :: FirstMatchAt(PageCells(doc), RegisteredKey, i) && Trim(PageCells(doc)[i].text) != "" ==>
      ParsesAsNumber(PageCells(doc)[i].text) && LeafStats(doc).registered == NumberValue(PageCells(doc)[i].text)
    ensures forall i :: FirstMatchAt(PageCells(doc), EnvelopesKey, i) && Trim(PageCells(doc)[i].text) != "" ==>
      ParsesAsNumber(PageCells(doc)[i].text) && LeafStats(doc).envelopes == NumberValue(PageCells(doc)[i].text)
    ensures forall i :: FirstMatchAt(PageCells(doc), ValidKey, i) && Trim(PageCells(doc)[i].text) != "" ==>
      ParsesAsNumber(PageCells(doc)[i].text) && LeafStats(doc).valid == NumberValue(PageCells(doc)[i].text)
  {
    var rows := AllRows(doc.tables);
    LeafVotesParties(rows);
    LeafVotesOrder(rows);
    LeafVotesLastRowWins(rows);
    SafeStatStrategies(doc, RegisteredKey, RegisteredLabel);
    SafeStatStrategies(doc, EnvelopesKey, EnvelopesLabel);
    SafeStatStrategies(doc, ValidKey, ValidLabel);
  }

  /** A page without `ps33` is read where it stands: it has no district pages, and what
      `scrape_detailed_data` returns for it is what `LeafStatsRead` describes. */
  lemma LeafReadDirectly(f: Fetched)
    requires Valid(f) && !IsComposite(f.url)
    ensures f.children == []
    ensures forall p :: p in Aggregate(f).votes.counts <==> exists i :: VoteRowAt(AllRows(f.doc.tables), i, p)
    ensures Aggregate(f).votes.keys == FirstOccurrences(VoteNames(AllRows(f.doc.tables)))
    ensures forall i :: LastVoteRowFor(AllRows(f.doc.tables), i) ==>
      Aggregate(f).votes.Get(PartyOf(AllRows(f.doc.tables)[i])) == VotesOf(AllRows(f.doc.tables)[i])
    ensures forall i :: FirstMatchAt(PageCells(f.doc), RegisteredKey, i) && Trim(PageCells(f.doc)[i].text) != "" ==>
      ParsesAsNumber(PageCells(f.doc)[i].text) && Aggregate(f).registered == NumberValue(PageCells(f.doc)[i].text)
    ensures forall i :: FirstMatchAt(PageCells(f.doc), EnvelopesKey, i) && Trim(PageCells(f.doc)[i].text) != "" ==>
      ParsesAsNumber(PageCells(f.doc)[i].text) && Aggregate(f).envelopes == NumberValue(PageCells(f.doc)[i].text)
    ensures forall i :: FirstMatchAt(PageCells(f.doc), ValidKey, i) && Trim(PageCells(f.doc)[i].text) != "" ==>
      ParsesAsNumber(PageCells(f.doc)[i].text) && Aggregate(f).valid == NumberValue(PageCells(f.doc)[i].text)
  {
    assert Aggregate(f) == LeafStats(f.doc);
    LeafStatsRead(f.doc);
  }

  /** `scrape_detailed_data(url, session)`, with the fetched pages given as `f`. */
  method ScrapeDetailedData(f: Fetched) returns (s: Stats)
    requires Valid(f)
    ensures s == Aggregate(f)
    decreases f, 1
  {
    if Contains(f.url, CompositeMarker) {
      s := ScrapeDistricts(f);
    } else {
      s := ScrapeSingleDistrict(f.doc);
    }
  }

  /** The composite branch of `scrape_detailed_data`: each district link followed in
      order, its statistics added to the running totals. */
  method ScrapeDistricts(f: Fetched) returns (s: Stats)
    requires Valid(f) && IsComposite(f.url)
    ensures s == Sums(Districts(f.children))
    decreases f, 0
  {
    var links := LinksContaining(f.doc.hrefs, DistrictMarker);
    s := NoStats;
    var i := 0;
    while i < |links|
      invariant i <= |links| == |f.children|
      invariant s == Sums(Districts(f.children)[..i])
    {
      var href := links[i];
      var url := ResolveDistrictUrl(href);
      assert f.children[i].url == url;
      s := AddDistrict(f.children, i, s);
      i := i + 1;
    }
    assert Districts(f.children)[..i] == Districts(f.children);
  }

  /** One turn of the composite loop: the `i`-th district page is scraped and its
      statistics added to the running totals. */
  method AddDistrict(pages: seq<Fetched>, i: nat, total: Stats) returns (s: Stats)
    requires AllValid(pages) && i < |pages|
    requires total == Sums(Districts(pages)[..i])
    ensures s == Sums(Districts(pages)[..i + 1])
    decreases pages, 0, i
  {
    DistrictStep(pages, i);
    var sub := ScrapeDetailedData(pages[i]);
    var votes := MergeInto(total.votes, sub.votes);
    s := Stats(total.registered + sub.registered, total.envelopes + sub.envelopes,
               total.valid + sub.valid, votes);
  }

  /** One turn of the composite loop: the `i`-th district page is well formed, its tally
      too, and the totals after it are the totals before it plus its statistics. */
  lemma DistrictStep(pages: seq<Fetched>, i: nat)
    requires AllValid(pages) && i < |pages|
    ensures Valid(pages[i]) && Aggregate(pages[i]).votes.Valid()
    ensures Sums(Districts(pages)[..i + 1]) == Add(Sums(Districts(pages)[..i]), Aggregate(pages[i]))
  {
    AggregateValid(pages[i]);
    var ss := Districts(pages);
    PrefixGrows(ss, i);
  }

  lemma PrefixGrows<T>(s: seq<T>, i: nat)
    requires i < |s|
    ensures s[..i + 1] == s[..i] + [s[i]]
  {
  }

  /** The single-district branch of `scrape_detailed_data`: the three statistics and the
      vote-row scan. */
  method ScrapeSingleDistrict(doc: Document) returns (s: Stats)
    requires LeafParses(doc)
    ensures s == LeafStats(doc)
  {
    var registered := ExtractSafeStat(doc, RegisteredKey, RegisteredLabel);
    var envelopes := ExtractSafeStat(doc, EnvelopesKey, EnvelopesLabel);
    var valid := ExtractSafeStat(doc, ValidKey, ValidLabel);
    var rows := AllRows(doc.tables);
    var votes := Empty;
    var i := 0;
    while i < |rows|
      invariant i <= |rows|
      invariant votes == LeafVotes(rows[..i])
    {
      var tds := rows[i];
      assert rows[..i + 1][..i] == rows[..i];
      if |tds| >= 3 {
        var partyName := Trim(tds[1].text);
        var voteCount := NumberText(tds[2].text);
        if partyName != "" && IsDigits(voteCount) {
          votes := votes.Put(partyName, DigitsValue(voteCount));
        }
      }
      i := i + 1;
    }
    assert rows[..|rows|] == rows;
    s := Stats(registered, envelopes, valid, votes);
  }
}
