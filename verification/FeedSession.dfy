/** Reading a newest-first list page by page, whatever the pages are. */
module PagedReading {
  import opened Options
  import opened NewestFirst

  /** Entries by cursor: those older than it, or all of them. */
  type ByCursor = Option<int> -> seq<Entry>

  /** Fetching page after page, each asking for what is older than the last entry shown, until one is empty. */
  function Reading(page: ByCursor, before: Option<int>, rounds: nat): seq<Entry>
    decreases rounds
  {
    if rounds == 0 || page(before) == [] then []
    else page(before) + Reading(page, Some(page(before)[|page(before)| - 1].time), rounds - 1)
  }

  ghost predicate RespectsCursor(entries: seq<Entry>, before: Option<int>) {
    forall e :: e in entries ==> before.Some? ==> e.time < before.value
  }

  /** Pages respect their cursor; what is left is ordered, and at an older cursor it is what is older. */
  ghost predicate Readable(page: ByCursor, left: ByCursor) {
    && (forall before: Option<int> :: RespectsCursor(page(before), before))
    && (forall before: Option<int> :: RespectsCursor(left(before), before) && Ordered(left(before)))
    && (forall before: Option<int>, time: int :: (before.Some? ==> time < before.value) ==> Narrows(left, before, time))
  }

  ghost predicate Narrows(left: ByCursor, before: Option<int>, time: int) {
    left(Some(time)) == Keep(Older(time), left(before))
  }

  /**
   * At every cursor that the reading reaches, while something is left: the page is not empty and no longer than
   * what is left, exact, and does not end inside a tie. Once nothing is left, the page is empty.
   */
  ghost predicate Continues(left: ByCursor, length: Option<int> -> nat, exact: Option<int> -> bool, before: Option<int>,
                            rounds: nat)
    decreases rounds
  {
    var rest, n := left(before), length(before);
    if rest == [] then n == 0
    else
      rounds > 0 && 0 < n <= |rest| && exact(before) && (n < |rest| ==> rest[n].time < rest[n - 1].time)
      && Continues(left, length, exact, Some(rest[n - 1].time), rounds - 1)
  }

  lemma {:induction false} ReadingIsOlder(page: ByCursor, left: ByCursor, time: int, rounds: nat)
    requires Readable(page, left)
    ensures forall e :: e in Reading(page, Some(time), rounds) ==> e.time < time
    decreases rounds
  {
    var shown := page(Some(time));
    assert RespectsCursor(shown, Some(time));
    if rounds > 0 && shown != [] {
      assert shown[|shown| - 1] in shown;
      ReadingIsOlder(page, left, shown[|shown| - 1].time, rounds - 1);
    }
  }

  lemma OlderRest(rest: seq<Entry>, n: nat, time: int)
    requires Ordered(rest) && 0 < n <= |rest| && time == rest[n - 1].time
    requires n < |rest| ==> rest[n].time < time
    ensures Keep(Older(time), rest) == rest[n..]
  {
    if n < |rest| {
      OlderThanBoundary(rest, n);
    } else {
      KeepNone(Older(time), rest);
    }
  }

  /** What a page of `n` entries leaves: all that follows it, unless it ends inside a tie. */
  lemma LeftAfter(page: ByCursor, left: ByCursor, before: Option<int>, n: nat, time: int)
    requires Readable(page, left) && 0 < n <= |left(before)| && time == left(before)[n - 1].time
    requires n < |left(before)| ==> left(before)[n].time < time
    ensures left(Some(time)) == left(before)[n..]
  {
    assert RespectsCursor(left(before), before) && left(before)[n - 1] in left(before);
    assert Narrows(left, before, time);
    OlderRest(left(before), n, time);
  }

  lemma JoinIsWhole(shown: seq<Entry>, more: seq<Entry>, rest: seq<Entry>, n: nat)
    requires n == |shown| <= |rest|
    ensures shown + more == rest <==> shown == Take(rest, n) && more == rest[n..]
  {
    if shown + more == rest {
      assert shown == (shown + more)[..n] && more == (shown + more)[n..];
    }
  }

  /** One page of the claim below. */
  lemma ReadingStep(page: ByCursor, left: ByCursor, before: Option<int>, rounds: nat, n: nat)
    requires Readable(page, left) && 0 < n == |page(before)| <= |left(before)| && rounds > 0
    ensures var rest, next := left(before), Some(left(before)[n - 1].time);
            Reading(page, before, rounds) == rest
            <==> page(before) == Take(rest, n) && (n < |rest| ==> rest[n].time < rest[n - 1].time)
                 && Reading(page, next, rounds - 1) == left(next)
  {
    var shown, rest := page(before), left(before);
    var time := shown[n - 1].time;
    var more := Reading(page, Some(time), rounds - 1);
    JoinIsWhole(shown, more, rest, n);
    if shown == Take(rest, n) {
      assert rest[n - 1].time == time;
      if n == |rest| || rest[n].time < time {
        LeftAfter(page, left, before, n, time);
      } else {
        assert RespectsCursor(rest, before) && Ordered(rest);
        ReadingIsOlder(page, left, time, rounds - 1);
        assert rest[n..][0] == rest[n] && (more != [] ==> more[0] in more);
      }
    }
  }

  ghost predicate Described(page: ByCursor, left: ByCursor, length: Option<int> -> nat, exact: Option<int> -> bool,
                            before: Option<int>)
  {
    && |page(before)| == length(before)
    && (exact(before) <==> page(before) == Take(left(before), length(before)))
  }

  /** One round of `Continues`, the page taken from the reading. */
  lemma ContinuesStep(page: ByCursor, left: ByCursor, length: Option<int> -> nat, exact: Option<int> -> bool,
                      before: Option<int>, rounds: nat, n: nat)
    requires Readable(page, left) && Described(page, left, length, exact, before)
    requires 0 < n == |page(before)| <= |left(before)| && rounds > 0
    ensures var rest, next := left(before), Some(left(before)[n - 1].time);
            Continues(left, length, exact, before, rounds)
            <==> page(before) == Take(rest, n) && (n < |rest| ==> rest[n].time < rest[n - 1].time)
                 && Continues(left, length, exact, next, rounds - 1)
  {
  }

  /** The reading shows exactly what is left if and only if every page continues it. */
  lemma {:induction false} ReadingEnumeratesIff(page: ByCursor, left: ByCursor, length: Option<int> -> nat,
                                                exact: Option<int> -> bool, before: Option<int>, rounds: nat)
    requires Readable(page, left) && rounds > |left(before)|
    requires forall b: Option<int> :: Described(page, left, length, exact, b)
    ensures Reading(page, before, rounds) == left(before) <==> Continues(left, length, exact, before, rounds)
    decreases rounds
  {
    var rest, n := left(before), |page(before)|;
    assert Described(page, left, length, exact, before);
    if 0 < n <= |rest| {
      ReadingStep(page, left, before, rounds, n);
      ContinuesStep(page, left, length, exact, before, rounds, n);
      if n == |rest| || rest[n].time < rest[n - 1].time {
        LeftAfter(page, left, before, n, rest[n - 1].time);
        ReadingEnumeratesIff(page, left, length, exact, Some(rest[n - 1].time), rounds - 1);
      }
    } else {
      OutsideStep(page, left, length, exact, before, rounds);
    }
  }

  /** An empty page, or one longer than what is left. */
  lemma OutsideStep(page: ByCursor, left: ByCursor, length: Option<int> -> nat, exact: Option<int> -> bool,
                    before: Option<int>, rounds: nat)
    requires Described(page, left, length, exact, before) && rounds > 0
    requires page(before) == [] || |page(before)| > |left(before)|
    ensures Reading(page, before, rounds) == left(before) <==> Continues(left, length, exact, before, rounds)
  {
    if page(before) != [] {
      assert |Reading(page, before, rounds)| >= |page(before)|;
    }
  }

  // ---- Pages that are always exact -----------------------------------------------------------

  lemma VisitedUnfolds(rest: seq<Entry>, limit: nat, shown: seq<Entry>, time: int)
    requires Ordered(rest) && rest != [] && limit > 0
    requires shown == Take(rest, limit) && time == shown[|shown| - 1].time
    ensures Visited(rest, limit) == shown + Visited(Keep(Older(time), rest), limit)
  {
    if |rest| <= limit {
      KeepNone(Older(time), rest);
      assert rest + [] == rest;
    }
  }

  lemma VisitsStep(page: ByCursor, left: ByCursor, limit: nat, before: Option<int>, time: int)
    requires Readable(page, left) && limit > 0 && left(before) != [] && page(before) == Take(left(before), limit)
    requires time == page(before)[|page(before)| - 1].time
    ensures Visited(left(before), limit) == page(before) + Visited(left(Some(time)), limit)
    ensures |left(Some(time))| < |left(before)|
  {
    var rest, n := left(before), |page(before)|;
    assert RespectsCursor(rest, before) && rest[n - 1] in rest;
    assert Narrows(left, before, time);
    KeepDrops(Older(time), rest, n - 1);
    VisitedUnfolds(rest, limit, page(before), time);
  }

  ghost predicate ShowsFirst(page: ByCursor, left: ByCursor, limit: nat, before: Option<int>) {
    page(before) == Take(left(before), limit)
  }

  /** At each cursor the whole is the page followed by the whole at the page's end, and grows shorter. */
  ghost predicate Follows(page: ByCursor, whole: ByCursor, size: Option<int> -> nat, before: Option<int>) {
    if page(before) == [] then whole(before) == []
    else
      var next := Some(page(before)[|page(before)| - 1].time);
      whole(before) == page(before) + whole(next) && size(next) < size(before)
  }

  lemma {:induction false} ReadingFollows(page: ByCursor, whole: ByCursor, size: Option<int> -> nat, before: Option<int>,
                                          rounds: nat)
    requires forall b: Option<int> :: Follows(page, whole, size, b)
    requires rounds >= size(before)
    ensures Reading(page, before, rounds) == whole(before)
    decreases rounds
  {
    assert Follows(page, whole, size, before);
    if page(before) != [] {
      ReadingFollows(page, whole, size, Some(page(before)[|page(before)| - 1].time), rounds - 1);
    }
  }

  lemma ReadingVisits(page: ByCursor, left: ByCursor, limit: nat, rounds: nat)
    requires Readable(page, left) && limit > 0 && rounds >= |left(None)|
    requires forall b: Option<int> :: ShowsFirst(page, left, limit, b)
    ensures Reading(page, None, rounds) == Visited(left(None), limit)
  {
    var whole: ByCursor := before => Visited(left(before), limit);
    var size: Option<int> -> nat := before => |left(before)|;
    forall b: Option<int> ensures Follows(page, whole, size, b) {
      assert ShowsFirst(page, left, limit, b);
      if left(b) != [] {
        VisitsStep(page, left, limit, b, page(b)[|page(b)| - 1].time);
      }
    }
    ReadingFollows(page, whole, size, None, rounds);
  }
}

/** Reading the whole activity feed page by page, with or without a filter. */
module FeedSession {
  import opened Options
  import opened NewestFirst
  import opened PagedReading
  import opened ActivityFeed
  import opened FeedAudit

  type Filter = Option<Entry -> bool>

  /** The pages of the feed. */
  function PageAt(stores: Stores, limit: nat, filter: Filter): ByCursor {
    (before: Option<int>) => Feed(stores, limit, before, filter)
  }

  /** What is left to show at a cursor, in the untruncated feed. */
  function LeftAt(stores: Stores, filter: Filter): ByCursor {
    (before: Option<int>) => WholeFeed(stores, ActorsOf(stores.log), before, filter)
  }

  /** Reading the feed from its newest entry on. */
  function Session(stores: Stores, limit: nat, filter: Filter, rounds: nat): seq<Entry> {
    Reading(PageAt(stores, limit, filter), None, rounds)
  }

  /** The whole untruncated feed. */
  function Everywhere(stores: Stores, filter: Filter): seq<Entry> {
    WholeFeed(stores, ActorsOf(stores.log), None, filter)
  }

  lemma {:induction false} KeepTwice(f: Entry -> bool, g: Entry -> bool, h: Entry -> bool, s: seq<Entry>)
    requires forall e :: e in s ==> (h(e) <==> f(e) && g(e))
    ensures Keep(f, Keep(g, s)) == Keep(h, s)
  {
    if s != [] {
      assert s == [s[0]] + s[1..];
      KeepTwice(f, g, h, s[1..]);
      KeepStep(g, s[0], s[1..]);
      KeepStep(h, s[0], s[1..]);
      KeepStep(f, s[0], Keep(g, s[1..]));
    }
  }

  lemma CursorNarrows(stores: Stores, before: Option<int>, filter: Filter, time: int)
    requires before.Some? ==> time < before.value
    ensures Narrows(LeftAt(stores, filter), before, time)
  {
    KeepTwice(Older(time), Selected(before, filter), Selected(Some(time), filter), Everything(stores, ActorsOf(stores.log)));
  }

  lemma LeftIsOrdered(stores: Stores, before: Option<int>, filter: Filter)
    ensures Ordered(LeftAt(stores, filter)(before)) && RespectsCursor(LeftAt(stores, filter)(before), before)
  {
    var all := CommandEntries(stores.log) + Governance(stores, ActorsOf(stores.log));
    StableSortSorts(all);
    KeepOrdered(Selected(before, filter), StableSort(all));
    KeepMembers(Selected(before, filter), StableSort(all));
  }

  lemma PageRespectsCursor(stores: Stores, limit: nat, before: Option<int>, filter: Filter)
    ensures RespectsCursor(PageAt(stores, limit, filter)(before), before)
  {
    var rows := Fetched(stores.log, SourceLimit(limit, filter.Some?), before);
    var all := StableSort(CommandEntries(rows) + Governance(stores, ActorsOf(rows)));
    KeepMembers(Selected(before, filter), all);
  }

  lemma FeedIsReadable(stores: Stores, limit: nat, filter: Filter)
    ensures Readable(PageAt(stores, limit, filter), LeftAt(stores, filter))
  {
    var page, left := PageAt(stores, limit, filter), LeftAt(stores, filter);
    forall before: Option<int> ensures RespectsCursor(page(before), before) {
      PageRespectsCursor(stores, limit, before, filter);
    }
    forall before: Option<int> ensures RespectsCursor(left(before), before) && Ordered(left(before)) {
      LeftIsOrdered(stores, before, filter);
    }
    forall before: Option<int>, time: int | before.Some? ==> time < before.value ensures Narrows(left, before, time) {
      CursorNarrows(stores, before, filter, time);
    }
  }

  // ---- One page -----------------------------------------------------------------------------------

  /** The number of entries on the page at a cursor. */
  function LengthAt(stores: Stores, limit: nat, filter: Filter): Option<int> -> nat {
    (before: Option<int>) =>
      var n: nat := |Shown(stores, limit, before, filter)|
                    + |Others(stores, PageActors(stores, limit, before, filter), before, filter)|;
      if n < limit then n else limit
  }

  /** The page at a cursor loses nothing within it and knows the closing actors that reach it. */
  ghost function ExactAt(stores: Stores, limit: nat, filter: Filter): Option<int> -> bool {
    (before: Option<int>) =>
      var n := LengthAt(stores, limit, filter)(before);
      LossLiesBeyond(stores, limit, before, filter, n) && ClosersKnown(stores, limit, before, filter, n)
  }

  lemma PageHasLength(stores: Stores, limit: nat, before: Option<int>, filter: Filter)
    requires NewestFirstLog(stores.log)
    ensures |PageAt(stores, limit, filter)(before)| == LengthAt(stores, limit, filter)(before)
  {
    UnslicedIsMerge(stores, limit, before, filter);
    MergeLength(Shown(stores, limit, before, filter),
                Others(stores, PageActors(stores, limit, before, filter), before, filter));
  }

  /** The page shows what is left, as far as it goes, exactly when it loses nothing and knows its closers. */
  lemma PageIsPrefixIff(stores: Stores, limit: nat, before: Option<int>, filter: Filter, n: nat)
    requires NewestFirstLog(stores.log) && DistinctAgreements(stores) && n == LengthAt(stores, limit, filter)(before)
    ensures PageAt(stores, limit, filter)(before) == Take(LeftAt(stores, filter)(before), n)
       <==> ExactAt(stores, limit, filter)(before)
  {
    var unsliced, page := Unsliced(stores, limit, before, filter), PageAt(stores, limit, filter)(before);
    PageHasLength(stores, limit, before, filter);
    assert page == Take(unsliced, limit);
    assert Take(unsliced, n) == page;
    ShowsWholeFeedIff(stores, limit, before, filter, n);
  }

  // ---- The session ----------------------------------------------------------------------------------

  /**
   * At every cursor that the session reaches, while something is left: the page is not empty and no longer than
   * what is left, loses nothing within it, knows the closing actors that reach it, and does not end inside a tie.
   * Once nothing is left, the page is empty.
   */
  ghost predicate EveryPageContinues(stores: Stores, limit: nat, filter: Filter, rounds: nat) {
    Continues(LeftAt(stores, filter), LengthAt(stores, limit, filter), ExactAt(stores, limit, filter), None, rounds)
  }

  /**
   * For any log, audit rows included, and with any filter: reading page after page shows the whole untruncated
   * feed that the filter selects, without gap or repeat, if and only if every page on the way continues it.
   */
  lemma SessionEnumeratesIff(stores: Stores, limit: nat, filter: Filter, rounds: nat)
    requires NewestFirstLog(stores.log) && DistinctAgreements(stores)
    requires rounds > |Everywhere(stores, filter)|
    ensures Session(stores, limit, filter, rounds) == Everywhere(stores, filter)
       <==> EveryPageContinues(stores, limit, filter, rounds)
  {
    var page, left := PageAt(stores, limit, filter), LeftAt(stores, filter);
    var length, exact := LengthAt(stores, limit, filter), ExactAt(stores, limit, filter);
    FeedIsReadable(stores, limit, filter);
    forall b: Option<int> ensures Described(page, left, length, exact, b) {
      PageHasLength(stores, limit, b, filter);
      PageIsPrefixIff(stores, limit, b, filter, length(b));
    }
    ReadingEnumeratesIff(page, left, length, exact, None, rounds);
  }

  // ---- Logs without audit rows ------------------------------------------------------------------------

  lemma FetchedWithoutTransitions(stores: Stores, limit: nat, before: Option<int>)
    requires NoTransitions(stores.log)
    ensures NoTransitions(Fetched(stores.log, limit, before))
  {
    RowsOlderAreOlder(stores.log, before);
    var rows := Fetched(stores.log, limit, before);
    forall i | 0 <= i < |rows| ensures rows[i].payload.Other? {
      assert rows[i] in RowsOlder(stores.log, before);
    }
  }

  /** Without audit rows and with nothing filtered out, every page is exact. */
  lemma PlainPage(stores: Stores, limit: nat, before: Option<int>, filter: Filter)
    requires NewestFirstLog(stores.log) && NoTransitions(stores.log) && PassesAll(filter, limit)
    ensures PageAt(stores, limit, filter)(before) == Take(LeftAt(stores, filter)(before), limit)
  {
    var m := SourceLimit(limit, filter.Some?);
    FetchedWithoutTransitions(stores, m, before);
    WithoutTransitions(stores.log);
    WithoutTransitions(Fetched(stores.log, m, before));
    NoLossWithoutTransitions(stores, limit, before, filter);
    TruncationShowsIff(stores, limit, before, filter, limit);
  }

  /**
   * Without audit rows in the log and with nothing filtered out, the session enumerates the feed if and only if
   * no page boundary splits a tie.
   */
  lemma PlainSessionEnumeratesIff(stores: Stores, limit: nat, filter: Filter, rounds: nat)
    requires NewestFirstLog(stores.log) && NoTransitions(stores.log) && PassesAll(filter, limit) && limit > 0
    requires rounds >= |Everywhere(stores, filter)|
    ensures Session(stores, limit, filter, rounds) == Everywhere(stores, filter)
       <==> NoTieAcrossPages(Everywhere(stores, filter), limit)
  {
    var page, left := PageAt(stores, limit, filter), LeftAt(stores, filter);
    FeedIsReadable(stores, limit, filter);
    forall b: Option<int> ensures ShowsFirst(page, left, limit, b) {
      PlainPage(stores, limit, b, filter);
    }
    ReadingVisits(page, left, limit, rounds);
    LeftIsOrdered(stores, None, filter);
    PagingEnumeratesIff(Everywhere(stores, filter), limit);
  }

  // ---- Entries that are lost for good --------------------------------------------------------------------

  predicate Accepts(filter: Filter, e: Entry) {
    filter.Some? ==> filter.value(e)
  }

  function IfAccepted(filter: Filter, e: Entry): seq<Entry> {
    if Accepts(filter, e) then [e] else []
  }

  /** The rows fill one fetch and show nothing: audit rows, or commands that the filter drops. */
  ghost predicate FillsAFetch(front: seq<CommandRow>, limit: nat, filter: Filter) {
    && |front| == SourceLimit(limit, filter.Some?)
    && forall i :: 0 <= i < |front| && front[i].payload.Other? ==> !Accepts(filter, CommandEntry(front[i]))
  }

  /** Behind such rows comes a command; a proposal is older still. */
  function Behind(front: seq<CommandRow>, command: CommandRow, proposal: ProposalRow): Stores {
    Stores(front + [command], [proposal], [])
  }

  lemma {:induction false} NothingShown(rows: seq<CommandRow>, f: Entry -> bool)
    requires forall i :: 0 <= i < |rows| && rows[i].payload.Other? ==> !f(CommandEntry(rows[i]))
    ensures Keep(f, CommandEntries(rows)) == []
  {
    if rows != [] {
      var front, last := rows[..|rows| - 1], rows[|rows| - 1];
      NothingShown(front, f);
      KeepConcat(f, CommandEntries(front), if last.payload.Other? then [CommandEntry(last)] else []);
    }
  }

  lemma OneProposal(stores: Stores, proposal: ProposalRow, entry: Entry, actors: Actors)
    requires stores.agreements == [] && stores.proposals == [proposal] && proposal.decided.None? && proposal.applied.None?
    requires entry == ProposalEntries(proposal)[0]
    ensures Governance(stores, actors) == [entry] && StableSort(Governance(stores, actors)) == [entry]
  {
    assert stores.proposals[..0] == [];
    assert AllProposalEntries(stores.proposals) == AllProposalEntries([]) + ProposalEntries(proposal);
    assert [] + [entry] == [entry] && [entry][1..] == [];
  }

  lemma KeepOne(f: Entry -> bool, e: Entry)
    ensures Keep(f, [e]) == if f(e) then [e] else []
  {
    assert [e][1..] == [];
  }

  lemma FirstPage(stores: Stores, front: seq<CommandRow>, command: CommandRow, proposal: ProposalRow, entry: Entry, limit: nat,
                  filter: Filter)
    requires stores == Behind(front, command, proposal) && NewestFirstLog(stores.log) && limit > 0
    requires FillsAFetch(front, limit, filter) && proposal.decided.None? && proposal.applied.None?
    requires entry == ProposalEntries(proposal)[0]
    ensures Feed(stores, limit, None, filter) == IfAccepted(filter, entry)
  {
    var m := SourceLimit(limit, filter.Some?);
    FetchedIsSlice(stores.log, m, None);
    assert stores.log[0..m] == front;
    NothingShown(front, Selected(None, filter));
    UnslicedIsMerge(stores, limit, None, filter);
    OneProposal(stores, proposal, entry, ActorsOf(front));
    KeepOne(Selected(None, filter), entry);
    assert Shown(stores, limit, None, filter) == [];
  }

  lemma {:induction false} NoneOlder(log: seq<CommandRow>, time: int)
    requires forall i :: 0 <= i < |log| ==> log[i].time >= time
    ensures RowsOlder(log, Some(time)) == []
  {
    if log != [] {
      NoneOlder(log[1..], time);
    }
  }

  lemma SecondPage(stores: Stores, proposal: ProposalRow, entry: Entry, limit: nat, filter: Filter)
    requires NewestFirstLog(stores.log) && stores.agreements == [] && stores.proposals == [proposal]
    requires proposal.decided.None? && proposal.applied.None? && entry == ProposalEntries(proposal)[0]
    requires forall i :: 0 <= i < |stores.log| ==> stores.log[i].time >= entry.time
    ensures Feed(stores, limit, Some(entry.time), filter) == []
  {
    NoneOlder(stores.log, entry.time);
    OneProposal(stores, proposal, entry, ActorsOf([]));
    KeepOne(Selected(Some(entry.time), filter), entry);
    assert [] + [entry] == [entry];
  }

  /**
   * Behind rows that fill a fetch and show nothing, a command that the feed selects is lost for good: for every
   * limit, filter and number of rounds the session shows at most the older proposal.
   */
  lemma FullFetchLosesACommand(front: seq<CommandRow>, command: CommandRow, proposal: ProposalRow, limit: nat, filter: Filter,
                               rounds: nat)
    requires NewestFirstLog(front + [command]) && command.payload.Other? && proposal.created < command.time
    requires FillsAFetch(front, limit, filter) && proposal.decided.None? && proposal.applied.None?
    requires Accepts(filter, CommandEntry(command)) && limit > 0 && rounds > 0
    ensures var stores := Behind(front, command, proposal);
            && Session(stores, limit, filter, rounds) == IfAccepted(filter, ProposalEntries(proposal)[0])
            && CommandEntry(command) in Everywhere(stores, filter)
  {
    var stores, entry := Behind(front, command, proposal), ProposalEntries(proposal)[0];
    FirstPage(stores, front, command, proposal, entry, limit, filter);
    LogIsNewer(stores.log, command.time);
    SecondPage(stores, proposal, entry, limit, filter);
    if Accepts(filter, entry) {
      TwoPages(PageAt(stores, limit, filter), entry, rounds);
    }
    LastCommand(front, command);
    CommandsAreLeft(stores, CommandEntry(command), filter);
  }

  lemma TwoPages(page: ByCursor, entry: Entry, rounds: nat)
    requires page(None) == [entry] && page(Some(entry.time)) == [] && rounds > 0
    ensures Reading(page, None, rounds) == [entry]
  {
    assert Reading(page, Some(entry.time), rounds - 1) == [];
    assert [entry] + [] == [entry];
  }

  lemma LogIsNewer(log: seq<CommandRow>, time: int)
    requires NewestFirstLog(log) && log != [] && log[|log| - 1].time == time
    ensures forall i :: 0 <= i < |log| ==> log[i].time >= time
  {
  }

  lemma LastCommand(front: seq<CommandRow>, command: CommandRow)
    requires command.payload.Other?
    ensures CommandEntry(command) in CommandEntries(front + [command])
  {
    assert (front + [command])[..|front|] == front;
  }

  lemma CommandsAreLeft(stores: Stores, e: Entry, filter: Filter)
    requires e in CommandEntries(stores.log) && Accepts(filter, e)
    ensures e in Everywhere(stores, filter)
  {
    var all := CommandEntries(stores.log) + Governance(stores, ActorsOf(stores.log));
    assert e in all;
    SortedMembers(all, e);
    KeepMembers(Selected(None, filter), StableSort(all));
  }

  lemma SortedMembers(s: seq<Entry>, e: Entry)
    requires e in s
    ensures e in StableSort(s)
  {
    StableSortSorts(s);
    assert e in multiset(s) && e in multiset(StableSort(s));
  }

  /** As many audit rows as one fetch holds. */
  function AuditRows(n: nat): (rows: seq<CommandRow>)
    ensures |rows| == n && forall i :: 0 <= i < n ==> rows[i] == CommandRow(10, "owner", Transition(None, None))
  {
    seq(n, i requires 0 <= i < n => CommandRow(10, "owner", Transition(None, None)))
  }

  const THE_COMMAND := CommandRow(5, "owner", Other(Command, "on", "d"))
  const THE_FLOW := CommandRow(10, "guest", Other(Flow, "run", "f"))
  const THE_PROPOSAL := ProposalRow("p", "owner", None, 1, None, None)

  /** Audit rows alone do it, `MAX_LIMIT` of them under any filter that selects the command. */
  lemma AuditRowsLoseACommand(limit: nat, filter: Filter, rounds: nat)
    requires Accepts(filter, CommandEntry(THE_COMMAND)) && limit > 0 && rounds > 0
    ensures var stores := Behind(AuditRows(SourceLimit(limit, filter.Some?)), THE_COMMAND, THE_PROPOSAL);
            && NewestFirstLog(stores.log) && DistinctAgreements(stores)
            && Session(stores, limit, filter, rounds) == IfAccepted(filter, ProposalEntries(THE_PROPOSAL)[0])
            && CommandEntry(THE_COMMAND) in Everywhere(stores, filter)
  {
    FullFetchLosesACommand(AuditRows(SourceLimit(limit, filter.Some?)), THE_COMMAND, THE_PROPOSAL, limit, filter, rounds);
  }

  /** As many flow rows as a filtered fetch holds. */
  function FlowRows(): (rows: seq<CommandRow>)
    ensures |rows| == MAX_LIMIT && forall i :: 0 <= i < MAX_LIMIT ==> rows[i] == THE_FLOW
  {
    seq(MAX_LIMIT, i requires 0 <= i < MAX_LIMIT => THE_FLOW)
  }

  /** And so do entries that the filter drops, by kind or by actor: a short page may well have matches behind it. */
  lemma FilteredRowsLoseAMatch(limit: nat, f: Entry -> bool, rounds: nat)
    requires f(CommandEntry(THE_COMMAND)) && !f(CommandEntry(THE_FLOW)) && limit > 0 && rounds > 0
    ensures var stores := Behind(FlowRows(), THE_COMMAND, THE_PROPOSAL);
            && NewestFirstLog(stores.log) && NoTransitions(stores.log)
            && Session(stores, limit, Some(f), rounds) == IfAccepted(Some(f), ProposalEntries(THE_PROPOSAL)[0])
            && CommandEntry(THE_COMMAND) in Everywhere(stores, Some(f))
  {
    FullFetchLosesACommand(FlowRows(), THE_COMMAND, THE_PROPOSAL, limit, Some(f), rounds);
  }
}
