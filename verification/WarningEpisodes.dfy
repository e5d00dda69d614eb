/** `warnings_list` and `dismiss_warning` in linkmoth_engine.py: failing runs outside incidents, collapsed per
    code into episodes in one pass over the interleaved rows. */
module WarningEpisodes {
  const WARNING_EPISODE_GAP_SECONDS := 3600

  /** A stored run; `evidence` stands for everything an episode copies from its newest run. */
  datatype Row = Row(ts: int, code: string, evidence: string)

  datatype Episode = Episode(code: string, evidence: string, firstTs: int, lastTs: int, count: nat)

  /** ORDER BY ts DESC. */
  predicate NewestFirst(rows: seq<Row>) {
    forall i, j :: 0 <= i < j < |rows| ==> rows[i].ts >= rows[j].ts
  }

  // ----- what the grouping should be -----

  function ForCode(rows: seq<Row>, code: string): seq<Row> {
    if rows == [] then []
    else
      var n := |rows| - 1;
      if rows[n].code == code then ForCode(rows[..n], code) + [rows[n]] else ForCode(rows[..n], code)
  }

  function Last<T>(s: seq<T>): T
    requires s != []
  {
    s[|s| - 1]
  }

  function Front<T>(s: seq<T>): seq<T>
    requires s != []
  {
    s[..|s| - 1]
  }

  /** A stretch of rows that belong together. */
  type Chain = s: seq<Row> | s != [] witness [Row(0, "", "")]

  /** The rows of one code cut wherever two neighbours are further apart than the gap. */
  function Chains(rows: seq<Row>): (r: seq<Chain>)
    ensures rows != [] ==> r != [] && Last(Last(r)) == Last(rows)
    ensures rows == [] <==> r == []
  {
    if rows == [] then []
    else
      var before, row := Chains(Front(rows)), Last(rows);
      if Joins(before, row) then
        assert Last(Front(before) + [Last(before) + [row]]) == Last(before) + [row];
        Front(before) + [Last(before) + [row]]
      else before + [[row]]
  }

  /** Whether a row continues the last chain. */
  predicate Joins(before: seq<Chain>, row: Row) {
    before != [] && Last(Last(before)).ts - row.ts <= WARNING_EPISODE_GAP_SECONDS
  }

  lemma ChainsUnfold(rows: seq<Row>)
    requires rows != []
    ensures var before, row := Chains(Front(rows)), Last(rows);
      Chains(rows) == if Joins(before, row) then Front(before) + [Last(before) + [row]] else before + [[row]]
  {
  }

  function Summary(chain: Chain): Episode {
    Episode(chain[0].code, chain[0].evidence, Last(chain).ts, chain[0].ts, |chain|)
  }

  function Summaries(chains: seq<Chain>): seq<Episode> {
    if chains == [] then [] else Summaries(Front(chains)) + [Summary(Last(chains))]
  }

  function NewEpisode(row: Row): Episode {
    Episode(row.code, row.evidence, row.ts, row.ts, 1)
  }

  function Extend(e: Episode, row: Row): Episode {
    e.(firstTs := row.ts, count := e.count + 1)
  }

  /** One row more for the episodes of its code. */
  function AddRow(episodes: seq<Episode>, row: Row): seq<Episode> {
    if episodes != [] && Last(episodes).firstTs - row.ts <= WARNING_EPISODE_GAP_SECONDS
    then Front(episodes) + [Extend(Last(episodes), row)]
    else episodes + [NewEpisode(row)]
  }

  function Folded(rows: seq<Row>): seq<Episode> {
    if rows == [] then [] else AddRow(Folded(Front(rows)), Last(rows))
  }

  lemma FoldedSnoc(rows: seq<Row>, row: Row)
    ensures Folded(rows + [row]) == AddRow(Folded(rows), row)
  {
    assert Front(rows + [row]) == rows;
  }

  lemma SummariesSnoc(chains: seq<Chain>, c: Chain)
    ensures Summaries(chains + [c]) == Summaries(chains) + [Summary(c)]
  {
    assert Front(chains + [c]) == chains;
  }

  lemma ExtendedSummary(chain: Chain, row: Row)
    ensures Summary(chain + [row]) == Extend(Summary(chain), row)
  {
  }

  /** Adding a row to the summaries adds it to the chains. */
  lemma AddRowToChains(before: seq<Chain>, row: Row)
    ensures AddRow(Summaries(before), row) ==
      Summaries(if Joins(before, row) then Front(before) + [Last(before) + [row]] else before + [[row]])
  {
    if before != [] {
      var front, last := Front(before), Last(before);
      SummariesSnoc(front, last);
      SummariesSnoc(front, last + [row]);
      ExtendedSummary(last, row);
      assert before == front + [last];
      hide Summaries, Summary;
      assert Front(Summaries(before)) == Summaries(front);
    }
    SummariesSnoc(before, [row]);
  }

  /** Adding row by row gives the summaries of the chains. */
  lemma {:induction false} FoldedIsChains(rows: seq<Row>)
    ensures Folded(rows) == Summaries(Chains(rows))
  {
    if rows != [] {
      FoldedIsChains(Front(rows));
      AddRowToChains(Chains(Front(rows)), Last(rows));
      hide Summaries, AddRow;
    }
  }

  function EpisodesOf(episodes: seq<Episode>, code: string): seq<Episode> {
    if episodes == [] then []
    else if Last(episodes).code == code then EpisodesOf(Front(episodes), code) + [Last(episodes)]
    else EpisodesOf(Front(episodes), code)
  }

  function TotalCount(episodes: seq<Episode>): nat {
    if episodes == [] then 0 else TotalCount(Front(episodes)) + Last(episodes).count
  }

  /** Sorted by `last_ts`, newest first. */
  predicate LatestFirst(episodes: seq<Episode>) {
    forall i, j :: 0 <= i < j < |episodes| ==> episodes[i].lastTs >= episodes[j].lastTs
  }

  // ----- the pass -----

  /** `episodes` groups `rows` exactly, and `latest` points at the newest-started episode of each code. */
  ghost predicate Groups(episodes: seq<Episode>, latest: map<string, nat>, rows: seq<Row>) {
    && (forall code :: EpisodesOf(episodes, code) == Folded(ForCode(rows, code)))
    && (forall code :: code in latest ==> latest[code] < |episodes| && episodes[latest[code]].code == code)
    && (forall code, j :: code in latest && latest[code] < j < |episodes| ==> episodes[j].code != code)
    && (forall j :: 0 <= j < |episodes| ==> episodes[j].code in latest)
  }

  lemma {:induction false} LatestIsLast(episodes: seq<Episode>, k: nat, e: Episode)
    requires k < |episodes| && e.code == episodes[k].code
    requires forall j :: k < j < |episodes| ==> episodes[j].code != episodes[k].code
    ensures EpisodesOf(episodes, e.code) != [] && Last(EpisodesOf(episodes, e.code)) == episodes[k]
    ensures EpisodesOf(episodes[k := e], e.code) == Front(EpisodesOf(episodes, e.code)) + [e]
    ensures forall code :: code != e.code ==> EpisodesOf(episodes[k := e], code) == EpisodesOf(episodes, code)
  {
    var n := |episodes| - 1;
    if k == n {
      assert Front(episodes[k := e]) == Front(episodes);
    } else {
      assert Front(episodes[k := e]) == Front(episodes)[k := e];
      LatestIsLast(Front(episodes), k, e);
    }
  }

  lemma {:induction false} NoEpisodeYet(episodes: seq<Episode>, code: string)
    requires forall j :: 0 <= j < |episodes| ==> episodes[j].code != code
    ensures EpisodesOf(episodes, code) == []
  {
    if episodes != [] {
      NoEpisodeYet(Front(episodes), code);
    }
  }

  lemma ForCodeSnoc(rows: seq<Row>, row: Row)
    ensures ForCode(rows + [row], row.code) == ForCode(rows, row.code) + [row]
    ensures forall code :: code != row.code ==> ForCode(rows + [row], code) == ForCode(rows, code)
  {
    assert (rows + [row])[..|rows|] == rows;
  }

  lemma EpisodesSnoc(episodes: seq<Episode>, e: Episode)
    ensures EpisodesOf(episodes + [e], e.code) == EpisodesOf(episodes, e.code) + [e]
    ensures forall code :: code != e.code ==> EpisodesOf(episodes + [e], code) == EpisodesOf(episodes, code)
    ensures TotalCount(episodes + [e]) == TotalCount(episodes) + e.count
  {
    assert Front(episodes + [e]) == episodes;
  }

  lemma {:induction false} CountAfterUpdate(episodes: seq<Episode>, k: nat, e: Episode)
    requires k < |episodes|
    ensures TotalCount(episodes[k := e]) == TotalCount(episodes) - episodes[k].count + e.count
  {
    if k == |episodes| - 1 {
      assert Front(episodes[k := e]) == Front(episodes);
    } else {
      assert Front(episodes[k := e]) == Front(episodes)[k := e];
      CountAfterUpdate(Front(episodes), k, e);
    }
  }

  /** The row joins the newest-started episode of its code. */
  lemma JoinKeepsGroups(episodes: seq<Episode>, latest: map<string, nat>, rows: seq<Row>, row: Row)
    requires Groups(episodes, latest, rows) && row.code in latest
    requires episodes[latest[row.code]].firstTs - row.ts <= WARNING_EPISODE_GAP_SECONDS
    ensures Groups(episodes[latest[row.code] := Extend(episodes[latest[row.code]], row)], latest, rows + [row])
  {
    hide EpisodesOf, ForCode, Folded;
    var k := latest[row.code];
    LatestIsLast(episodes, k, Extend(episodes[k], row));
    ForCodeSnoc(rows, row);
    FoldedSnoc(ForCode(rows, row.code), row);
  }

  lemma StartedEpisodes(episodes: seq<Episode>, latest: map<string, nat>, rows: seq<Row>, row: Row)
    requires Groups(episodes, latest, rows)
    requires row.code in latest ==> episodes[latest[row.code]].firstTs - row.ts > WARNING_EPISODE_GAP_SECONDS
    ensures EpisodesOf(episodes + [NewEpisode(row)], row.code) == Folded(ForCode(rows + [row], row.code))
    ensures forall code :: code != row.code ==>
      EpisodesOf(episodes + [NewEpisode(row)], code) == Folded(ForCode(rows + [row], code))
  {
    hide EpisodesOf, ForCode, Folded;
    if row.code in latest {
      LatestIsLast(episodes, latest[row.code], episodes[latest[row.code]]);
    } else {
      NoEpisodeYet(episodes, row.code);
    }
    var own := EpisodesOf(episodes, row.code);
    assert AddRow(own, row) == own + [NewEpisode(row)];
    assert own == Folded(ForCode(rows, row.code));
    EpisodesSnoc(episodes, NewEpisode(row));
    ForCodeSnoc(rows, row);
    FoldedSnoc(ForCode(rows, row.code), row);
  }

  /** The row starts a new episode of its code. */
  lemma StartKeepsGroups(episodes: seq<Episode>, latest: map<string, nat>, rows: seq<Row>, row: Row)
    requires Groups(episodes, latest, rows)
    requires row.code in latest ==> episodes[latest[row.code]].firstTs - row.ts > WARNING_EPISODE_GAP_SECONDS
    ensures Groups(episodes + [NewEpisode(row)], latest[row.code := |episodes|], rows + [row])
  {
    StartedEpisodes(episodes, latest, rows, row);
    hide EpisodesOf, ForCode, Folded;
  }

  lemma Nothing()
    ensures Groups([], map[], []) && TotalCount([]) == 0
  {
  }

  /** Episodes newest first, none newer than `ts`. */
  ghost predicate LatestFirstDownTo(episodes: seq<Episode>, ts: int) {
    LatestFirst(episodes) && forall j :: 0 <= j < |episodes| ==> ts <= episodes[j].lastTs
  }

  /** The grouping loop of `warnings_list`. The dictionaries that the original shares between its list and
      `latest_for_code` are positions in the list here. */
  method Group(rows: seq<Row>) returns (episodes: seq<Episode>)
    requires NewestFirst(rows)
    ensures forall code :: EpisodesOf(episodes, code) == Folded(ForCode(rows, code))
    ensures TotalCount(episodes) == |rows|
    ensures LatestFirst(episodes)
  {
    hide EpisodesOf, ForCode, Folded, TotalCount;
    episodes := [];
    var latest: map<string, nat> := map[];
    Nothing();
    for n := 0 to |rows|
      invariant Groups(episodes, latest, rows[..n])
      invariant TotalCount(episodes) == n
      invariant n < |rows| ==> LatestFirstDownTo(episodes, rows[n].ts)
      invariant LatestFirst(episodes)
    {
      var row := rows[n];
      assert rows[..n + 1] == rows[..n] + [row];
      if row.code in latest && episodes[latest[row.code]].firstTs - row.ts <= WARNING_EPISODE_GAP_SECONDS {
        var k := latest[row.code];
        JoinKeepsGroups(episodes, latest, rows[..n], row);
        CountAfterUpdate(episodes, k, Extend(episodes[k], row));
        episodes := episodes[k := Extend(episodes[k], row)];
      } else {
        StartKeepsGroups(episodes, latest, rows[..n], row);
        EpisodesSnoc(episodes, NewEpisode(row));
        latest := latest[row.code := |episodes|];
        episodes := episodes + [NewEpisode(row)];
      }
    }
    assert rows[..|rows|] == rows;
  }

  // ----- what a chain is -----

  function Flatten(chains: seq<Chain>): seq<Row> {
    if chains == [] then [] else Flatten(Front(chains)) + Last(chains)
  }

  /** Neighbours in the chain are within the gap. */
  predicate Tight(chain: Chain) {
    |chain| == 1 || (Tight(Front(chain)) && Last(Front(chain)).ts - Last(chain).ts <= 3600)
  }

  /** Every chain is tight, and two neighbouring chains are further apart than the gap. */
  predicate Maximal(chains: seq<Chain>) {
    chains == [] ||
    (&& Maximal(Front(chains))
     && Tight(Last(chains))
     && (|chains| > 1 ==> Last(Last(Front(chains))).ts - Last(chains)[0].ts > 3600))
  }

  lemma FlattenSnoc(chains: seq<Chain>, c: Chain)
    ensures Flatten(chains + [c]) == Flatten(chains) + c
    ensures Maximal(chains + [c]) <==>
      Maximal(chains) && Tight(c) && (chains != [] ==> Last(Last(chains)).ts - c[0].ts > WARNING_EPISODE_GAP_SECONDS)
  {
    assert Front(chains + [c]) == chains;
  }

  lemma TightSnoc(c: Chain, row: Row)
    ensures Tight(c + [row]) <==> Tight(c) && Last(c).ts - row.ts <= WARNING_EPISODE_GAP_SECONDS
  {
    assert Front(c + [row]) == c;
  }

  lemma JoiningStaysMaximal(chains: seq<Chain>, row: Row)
    requires chains != [] && Maximal(chains) && Joins(chains, row)
    ensures Maximal(Front(chains) + [Last(chains) + [row]])
    ensures Flatten(Front(chains) + [Last(chains) + [row]]) == Flatten(chains) + [row]
  {
    hide Flatten, Maximal, Tight;
    var front, last := Front(chains), Last(chains);
    assert chains == front + [last];
    FlattenSnoc(front, last);
    FlattenSnoc(front, last + [row]);
    TightSnoc(last, row);
    assert Flatten(front) + (last + [row]) == (Flatten(front) + last) + [row];
  }

  lemma StartingStaysMaximal(chains: seq<Chain>, row: Row)
    requires Maximal(chains) && !Joins(chains, row)
    ensures Maximal(chains + [[row]]) && Flatten(chains + [[row]]) == Flatten(chains) + [row]
  {
    FlattenSnoc(chains, [row]);
    OneRowIsTight(row);
    hide Flatten, Maximal, Tight;
  }

  /** The chains lose no row and are maximal. */
  lemma {:induction false} ChainsAreMaximal(rows: seq<Row>)
    ensures Flatten(Chains(rows)) == rows && Maximal(Chains(rows))
  {
    if rows != [] {
      ChainsUnfold(rows);
      assert rows == Front(rows) + [Last(rows)];
      var before, row := Chains(Front(rows)), Last(rows);
      assert Joins(before, row) ==> before != [];
      hide Flatten, Maximal, Chains, Joins, Front, Last;
      ChainsAreMaximal(Front(rows));
      if Joins(before, row) {
        JoiningStaysMaximal(before, row);
      } else {
        StartingStaysMaximal(before, row);
      }
    } else {
      NoChains();
    }
  }

  lemma NoChains()
    ensures Flatten([]) == [] && Maximal([])
  {
  }

  lemma OneRowIsTight(row: Row)
    ensures Tight([row])
  {
  }

  /** Nothing else cuts the rows into maximal chains. */
  lemma {:induction false} OnlyTheChainsAreMaximal(chains: seq<Chain>)
    requires Maximal(chains)
    ensures Chains(Flatten(chains)) == chains
    decreases |Flatten(chains)|
  {
    if chains != [] {
      hide Flatten, Maximal, Tight;
      var front, last := Front(chains), Last(chains);
      assert chains == front + [last];
      FlattenSnoc(front, last);
      var row := Last(last);
      var rows := Flatten(chains);
      if |last| == 1 {
        assert last == [row] && Front(rows) == Flatten(front);
        OnlyTheChainsAreMaximal(front);
      } else {
        var shorter: Chain := Front(last);
        assert shorter + [row] == last;
        TightSnoc(shorter, row);
        FlattenSnoc(front, shorter);
        assert Front(rows) == Flatten(front + [shorter]);
        OnlyTheChainsAreMaximal(front + [shorter]);
        assert Front(front + [shorter]) == front;
      }
    } else {
      NoChains();
    }
  }

  lemma {:induction false} ForCodeNewestFirst(rows: seq<Row>, code: string)
    requires NewestFirst(rows)
    ensures NewestFirst(ForCode(rows, code))
    ensures forall r :: r in ForCode(rows, code) <==> r in rows && r.code == code
  {
    if rows != [] {
      ForCodeNewestFirst(Front(rows), code);
      assert rows == Front(rows) + [Last(rows)];
      forall r | r in Front(rows) ensures r.ts >= Last(rows).ts {
        var i :| 0 <= i < |rows| - 1 && rows[i] == r;
      }
    }
  }

  /** Newest first and nothing before `ts`. */
  predicate Since(chain: seq<Row>, ts: int) {
    NewestFirst(chain) && forall k :: 0 <= k < |chain| ==> chain[k].ts >= ts
  }

  lemma GrownChainSince(chain: Chain, row: Row, ts: int)
    requires Since(chain, ts) && row.ts <= ts
    ensures Since(chain + [row], row.ts)
  {
  }

  /** The rows of a chain are newest first, and none is older than the last row of all. */
  lemma {:induction false} ChainSince(rows: seq<Row>, i: nat)
    requires NewestFirst(rows) && i < |Chains(rows)|
    ensures Since(Chains(rows)[i], Last(rows).ts)
  {
    var before, row := Chains(Front(rows)), Last(rows);
    ChainsUnfold(rows);
    if i < |before| {
      assert Last(Front(rows)).ts >= row.ts;
      ChainSince(Front(rows), i);
      hide Chains, Joins;
      GrownChainSince(before[i], row, Last(Front(rows)).ts);
      assert Since(before[i], row.ts);
    }
  }

  /** Inside a chain the rows run from the episode's last time down to its first: `last_ts` is the latest and
      `first_ts` the earliest of its rows. */
  lemma EpisodeSpansItsRows(rows: seq<Row>, i: nat)
    requires NewestFirst(rows) && i < |Chains(rows)|
    ensures Since(Chains(rows)[i], Summary(Chains(rows)[i]).firstTs)
    ensures forall k :: 0 <= k < |Chains(rows)[i]| ==> Chains(rows)[i][k].ts <= Summary(Chains(rows)[i]).lastTs
    ensures exists k :: 0 <= k < |Chains(rows)[i]| && Chains(rows)[i][k].ts == Summary(Chains(rows)[i]).firstTs
    ensures var newest := Chains(rows)[i][0];
      newest.ts == Summary(Chains(rows)[i]).lastTs && newest.evidence == Summary(Chains(rows)[i]).evidence
      && newest.code == Summary(Chains(rows)[i]).code
    ensures Summary(Chains(rows)[i]).count == |Chains(rows)[i]|
  {
    ChainSince(rows, i);
    hide Chains;
  }

  // ----- the list and its dismissals -----

  predicate Dismissed(row: Row, dismissed: map<string, int>) {
    row.code in dismissed && row.ts <= dismissed[row.code]
  }

  function Undismissed(rows: seq<Row>, dismissed: map<string, int>): (r: seq<Row>)
    ensures forall x :: x in r <==> x in rows && !Dismissed(x, dismissed)
  {
    if rows == [] then []
    else if Dismissed(rows[0], dismissed) then Undismissed(rows[1..], dismissed)
    else [rows[0]] + Undismissed(rows[1..], dismissed)
  }

  lemma {:induction false} UndismissedNewestFirst(rows: seq<Row>, dismissed: map<string, int>)
    requires NewestFirst(rows)
    ensures NewestFirst(Undismissed(rows, dismissed))
  {
    if rows != [] {
      UndismissedNewestFirst(rows[1..], dismissed);
      var rest := Undismissed(rows[1..], dismissed);
      forall j | 0 <= j < |rest| ensures rows[0].ts >= rest[j].ts {
        assert rest[j] in rest;
        var k :| 0 <= k < |rows[1..]| && rows[1..][k] == rest[j];
      }
    }
  }

  /** `episodes.sort(key=last_ts, reverse=True)`: stable, so equal times keep their order. */
  function InsertByLast(episodes: seq<Episode>, e: Episode): seq<Episode> {
    if episodes != [] && Last(episodes).lastTs < e.lastTs then InsertByLast(Front(episodes), e) + [Last(episodes)]
    else episodes + [e]
  }

  function SortByLast(episodes: seq<Episode>): seq<Episode> {
    if episodes == [] then [] else InsertByLast(SortByLast(Front(episodes)), Last(episodes))
  }

  /** The pass already delivers the episodes in order: the final sort changes nothing. */
  lemma {:induction false} SortIsRedundant(episodes: seq<Episode>)
    requires LatestFirst(episodes)
    ensures SortByLast(episodes) == episodes
  {
    if episodes != [] {
      SortIsRedundant(Front(episodes));
      assert Front(episodes) + [Last(episodes)] == episodes;
    }
  }

  /** The episodes of the rows: per code the maximal chains of that code's rows, nothing lost, newest first. */
  ghost predicate Exact(episodes: seq<Episode>, rows: seq<Row>) {
    && (forall code :: EpisodesOf(episodes, code) == Summaries(Chains(ForCode(rows, code))))
    && TotalCount(episodes) == |rows|
    && LatestFirst(episodes)
  }

  /** `warnings_list` before its limit, given the newest failing runs outside incidents and the table of
      dismissals. */
  method AllWarnings(rows: seq<Row>, dismissed: map<string, int>) returns (episodes: seq<Episode>)
    requires NewestFirst(rows)
    ensures Exact(episodes, Undismissed(rows, dismissed))
  {
    hide EpisodesOf, Folded, ForCode, TotalCount, Summaries, Chains;
    var kept := Undismissed(rows, dismissed);
    UndismissedNewestFirst(rows, dismissed);
    episodes := Group(kept);
    forall code ensures EpisodesOf(episodes, code) == Summaries(Chains(ForCode(kept, code))) {
      FoldedIsChains(ForCode(kept, code));
    }
    SortIsRedundant(episodes);
    episodes := SortByLast(episodes);
  }

  /** `warnings_list`: the limit keeps the newest episodes. */
  method WarningsList(rows: seq<Row>, dismissed: map<string, int>, limit: nat) returns (listed: seq<Episode>)
    requires NewestFirst(rows)
    ensures |listed| <= limit
    ensures exists all: seq<Episode> ::
      listed <= all && Exact(all, Undismissed(rows, dismissed)) && (|listed| == limit || listed == all)
  {
    hide Exact;
    var episodes := AllWarnings(rows, dismissed);
    listed := if limit < |episodes| then episodes[..limit] else episodes;
  }

  /** `dismiss_warning` on the table of high-water marks: refused without a code or a positive time. */
  function Dismiss(dismissed: map<string, int>, code: string, until: int): map<string, int> {
    if code == "" || until <= 0 then dismissed
    else dismissed[code := if code in dismissed && until < dismissed[code] then dismissed[code] else until]
  }

  /** Listed are the rows that are newer than their code's mark, or whose code has none. */
  lemma ListedExactly(rows: seq<Row>, dismissed: map<string, int>, row: Row)
    ensures row in Undismissed(rows, dismissed) <==>
      row in rows && (row.code in dismissed ==> dismissed[row.code] < row.ts)
  {
  }

  /** A dismissal hides exactly the rows of its code up to its time. What was hidden stays hidden, whatever
      the order of the marks, and a later recurrence and every other code stay visible. */
  lemma DismissalHidesExactly(rows: seq<Row>, dismissed: map<string, int>, code: string, until: int, row: Row)
    requires row in rows
    ensures row in Undismissed(rows, Dismiss(dismissed, code, until))
       <==> && row in Undismissed(rows, dismissed)
            && !(code != "" && until > 0 && row.code == code && row.ts <= until)
  {
  }
}
