/** When a page of the activity feed is a page of the whole feed: lost commands and closing actors together. */
module FeedAudit {
  import opened Options
  import opened NewestFirst
  import opened ActivityFeed

  // ---- Closing actors by the log's rows ---------------------------------------------------

  /** The rows that are not older than the cursor; in a newest-first log they come first. */
  function Skipped(log: seq<CommandRow>, before: Option<int>): (n: nat)
    ensures n <= |log|
  {
    if log == [] || RowIsOlder(log[0], before) then 0 else 1 + Skipped(log[1..], before)
  }

  function Reach(log: seq<CommandRow>, limit: nat, before: Option<int>): (n: nat)
    ensures Skipped(log, before) <= n <= |log|
  {
    if Skipped(log, before) + limit <= |log| then Skipped(log, before) + limit else |log|
  }

  lemma {:induction false} AllOlder(log: seq<CommandRow>, before: Option<int>)
    requires forall i :: 0 <= i < |log| ==> RowIsOlder(log[i], before)
    ensures RowsOlder(log, before) == log
  {
    if log != [] {
      AllOlder(log[1..], before);
      assert log == [log[0]] + log[1..];
    }
  }

  lemma {:induction false} RowsOlderIsTail(log: seq<CommandRow>, before: Option<int>)
    requires NewestFirstLog(log)
    ensures RowsOlder(log, before) == log[Skipped(log, before)..]
  {
    if log != [] {
      if RowIsOlder(log[0], before) {
        AllOlder(log, before);
      } else {
        RowsOlderIsTail(log[1..], before);
      }
    }
  }

  /** The fetched rows are one contiguous part of the log. */
  lemma FetchedIsSlice(log: seq<CommandRow>, limit: nat, before: Option<int>)
    requires NewestFirstLog(log)
    ensures Fetched(log, limit, before) == log[Skipped(log, before)..Reach(log, limit, before)]
  {
    RowsOlderIsTail(log, before);
  }

  /** Who is named as closing the agreement when no audit row is known. */
  function Guess(row: AgreementRow): string {
    if row.wasCountered && (row.status == "active" || row.status == "rejected") then row.consumer else row.provider
  }

  /** Rows of the page alone give the agreement this closing actor. */
  ghost predicate PageNames(page: seq<CommandRow>, row: AgreementRow, actor: string) {
    || (exists j :: IsLatest(page, j, row.id, row.status) && page[j].actor == actor)
    || ((forall j :: 0 <= j < |page| ==> !Names(page[j], row.id, row.status)) && Guess(row) == actor)
  }

  /**
   * The closing actor is known on the page that shows rows `from`, ..., `to - 1` of the log: no row of the log
   * names this closing, or the latest one that does lies on the page, or the page names the same actor anyway.
   */
  ghost predicate CloserKnown(row: AgreementRow, log: seq<CommandRow>, from: nat, to: nat)
    requires from <= to <= |log|
  {
    forall i :: IsLatest(log, i, row.id, row.status) ==>
      from <= i < to || PageNames(log[from..to], row, log[i].actor)
  }

  lemma ClosedByRows(row: AgreementRow, rows: seq<CommandRow>, actor: string)
    ensures ClosedBy(row, ActorsOf(rows)) == actor <==> PageNames(rows, row, actor)
  {
    ActorIsOfTheLatest(rows, row.id, row.status);
    if (row.id, row.status) in ActorsOf(rows) {
      var i :| IsLatest(rows, i, row.id, row.status)
               && ActorsOf(rows)[(row.id, row.status)] == Acted(rows[i].actor, rows[i].time);
      assert forall j :: IsLatest(rows, j, row.id, row.status) ==> j == i;
    }
  }

  lemma LatestOnThePage(log: seq<CommandRow>, from: nat, to: nat, i: int, agreement: string, status: string)
    requires from <= i < to <= |log| && IsLatest(log, i, agreement, status)
    ensures IsLatest(log[from..to], i - from, agreement, status)
  {
    var page := log[from..to];
    forall j | 0 <= j < |page| && Names(page[j], agreement, status)
      ensures page[j].time < log[i].time || (page[j].time == log[i].time && j <= i - from)
    {
      assert page[j] == log[from + j];
    }
  }

  lemma OnlyLatest(rows: seq<CommandRow>, i: int, agreement: string, status: string)
    requires IsLatest(rows, i, agreement, status)
    ensures forall j :: IsLatest(rows, j, agreement, status) ==> j == i
  {
  }

  lemma PageNamesTheLatest(row: AgreementRow, log: seq<CommandRow>, from: nat, to: nat, i: int)
    requires from <= i < to <= |log| && IsLatest(log, i, row.id, row.status)
    ensures PageNames(log[from..to], row, log[i].actor)
  {
    LatestOnThePage(log, from, to, i, row.id, row.status);
    assert log[from..to][i - from].actor == log[i].actor;
  }

  lemma PageNamesGuess(row: AgreementRow, log: seq<CommandRow>, from: nat, to: nat)
    requires from <= to <= |log| && forall j :: 0 <= j < |log| ==> !Names(log[j], row.id, row.status)
    ensures PageNames(log[from..to], row, Guess(row))
  {
    assert forall j :: 0 <= j < to - from ==> log[from..to][j] == log[from + j];
  }

  /** The page's closing actor is the whole log's if and only if it is known on the page. */
  lemma CloserIsRightIff(row: AgreementRow, log: seq<CommandRow>, from: nat, to: nat)
    requires from <= to <= |log|
    ensures ClosedBy(row, ActorsOf(log[from..to])) == ClosedBy(row, ActorsOf(log)) <==> CloserKnown(row, log, from, to)
  {
    ClosedByRows(row, log[from..to], ClosedBy(row, ActorsOf(log)));
    ActorIsOfTheLatest(log, row.id, row.status);
    if i :| IsLatest(log, i, row.id, row.status) {
      OnlyLatest(log, i, row.id, row.status);
      assert ClosedBy(row, ActorsOf(log)) == log[i].actor;
      if from <= i < to {
        PageNamesTheLatest(row, log, from, to, i);
      }
    } else {
      assert ClosedBy(row, ActorsOf(log)) == Guess(row);
      PageNamesGuess(row, log, from, to);
    }
  }

  /**
   * What proposals and agreements contribute to a page is what the whole log would give if and only if every
   * closing actor shown is known on the page.
   */
  lemma GovernanceIsExactIff(stores: Stores, limit: nat, before: Option<int>)
    requires NewestFirstLog(stores.log)
    ensures Governance(stores, ActorsOf(Fetched(stores.log, limit, before))) == Governance(stores, ActorsOf(stores.log))
            <==> forall row :: row in stores.agreements && ShowsCloser(row) ==>
                   CloserKnown(row, stores.log, Skipped(stores.log, before), Reach(stores.log, limit, before))
  {
    var from, to := Skipped(stores.log, before), Reach(stores.log, limit, before);
    FetchedIsSlice(stores.log, limit, before);
    GovernanceAgreesIff(stores, ActorsOf(stores.log[from..to]), ActorsOf(stores.log));
    forall row ensures ClosedBy(row, ActorsOf(stores.log[from..to])) == ClosedBy(row, ActorsOf(stores.log))
                       <==> CloserKnown(row, stores.log, from, to)
    {
      CloserIsRightIff(row, stores.log, from, to);
    }
  }

  /**
   * Which of several audit rows of one time counts: in a newest-first log the recorded actor is that of the
   * row written last if and only if the row written first, among those of the same time, names the same actor.
   */
  lemma LastWrittenCountsIff(log: seq<CommandRow>, agreement: string, status: string, newest: nat)
    requires NewestFirstLog(log) && newest < |log| && Names(log[newest], agreement, status)
    requires forall j :: 0 <= j < newest ==> !Names(log[j], agreement, status)
    ensures (agreement, status) in ActorsOf(log)
    ensures ActorsOf(log)[(agreement, status)].actor == log[newest].actor
       <==> exists i :: newest <= i < |log| && EarliestOfTies(log, agreement, status, newest, i)
                        && log[i].actor == log[newest].actor
  {
    ActorIsOfTheLatest(log, agreement, status);
    var i :| IsLatest(log, i, agreement, status) && ActorsOf(log)[(agreement, status)] == Acted(log[i].actor, log[i].time);
    assert newest <= i;
    assert EarliestOfTies(log, agreement, status, newest, i);
    forall j | newest <= j < |log| && EarliestOfTies(log, agreement, status, newest, j) ensures j == i {
    }
  }

  /** The last row read, hence the first written, that has the time of row `newest` and names the same closing. */
  ghost predicate EarliestOfTies(log: seq<CommandRow>, agreement: string, status: string, newest: nat, i: int)
    requires newest < |log|
  {
    && newest <= i < |log| && Names(log[i], agreement, status) && log[i].time == log[newest].time
    && forall j :: i < j < |log| && Names(log[j], agreement, status) ==> log[j].time < log[newest].time
  }

  /** Two audit rows of one time: the one written first counts, against the comment that the latest wins. */
  lemma FirstWrittenWinsTies(t: int, agreement: string, status: string, last: string, first: string)
    ensures var log := [CommandRow(t, last, Transition(Some(agreement), Some(status))),
                        CommandRow(t, first, Transition(Some(agreement), Some(status)))];
            NewestFirstLog(log) && ActorsOf(log) == map[(agreement, status) := Acted(first, t)]
  {
    var a := CommandRow(t, last, Transition(Some(agreement), Some(status)));
    var b := CommandRow(t, first, Transition(Some(agreement), Some(status)));
    assert [a, b][..1] == [a] && [a][..0] == [];
    assert ActorsOf([a]) == map[(agreement, status) := Acted(last, t)];
  }

  // ---- The same feed under two tables of actors ---------------------------------------------------

  /** An agreement id belongs to one row. */
  ghost predicate DistinctAgreements(stores: Stores) {
    forall a, b :: a in stores.agreements && b in stores.agreements && a.id == b.id ==> a == b
  }

  /** The entry that names who closed the agreement. */
  function Closing(row: AgreementRow, actors: Actors): Entry {
    Entry(row.updated, Agreement, ClosedBy(row, actors), row.status, row.id)
  }

  predicate Disputed(row: AgreementRow, a: Actors, b: Actors) {
    ShowsCloser(row) && ClosedBy(row, a) != ClosedBy(row, b)
  }

  /** Equal entries, or the two closing entries of one agreement. */
  ghost predicate Same(rows: seq<AgreementRow>, a: Actors, b: Actors, x: Entry, y: Entry) {
    x == y || exists row :: row in rows && Disputed(row, a, b) && x == Closing(row, a) && y == Closing(row, b)
  }

  ghost predicate SameLists(rows: seq<AgreementRow>, a: Actors, b: Actors, s: seq<Entry>, t: seq<Entry>) {
    |s| == |t| && forall k :: 0 <= k < |s| ==> Same(rows, a, b, s[k], t[k])
  }

  lemma SameTimes(rows: seq<AgreementRow>, a: Actors, b: Actors, x: Entry, y: Entry)
    requires Same(rows, a, b, x, y)
    ensures x.time == y.time
  {
  }

  lemma SameJoined(rows: seq<AgreementRow>, a: Actors, b: Actors, s: seq<Entry>, t: seq<Entry>, u: seq<Entry>, v: seq<Entry>)
    requires SameLists(rows, a, b, s, t) && SameLists(rows, a, b, u, v)
    ensures SameLists(rows, a, b, s + u, t + v)
  {
  }

  lemma SameSelf(rows: seq<AgreementRow>, a: Actors, b: Actors, s: seq<Entry>)
    ensures SameLists(rows, a, b, s, s)
  {
  }

  lemma EntriesAreSame(rows: seq<AgreementRow>, row: AgreementRow, a: Actors, b: Actors)
    requires row in rows
    ensures SameLists(rows, a, b, AgreementEntries(row, a), AgreementEntries(row, b))
  {
    if ShowsCloser(row) {
      assert AgreementEntries(row, a)[1] == Closing(row, a) && AgreementEntries(row, b)[1] == Closing(row, b);
      assert ClosedBy(row, a) != ClosedBy(row, b) ==> Disputed(row, a, b);
    }
  }

  lemma {:induction false} AgreementsAreSame(rows: seq<AgreementRow>, some: seq<AgreementRow>, a: Actors, b: Actors)
    requires forall row :: row in some ==> row in rows
    ensures SameLists(rows, a, b, AllAgreementEntries(some, a), AllAgreementEntries(some, b))
  {
    if some != [] {
      var front, last := some[..|some| - 1], some[|some| - 1];
      assert last in some && forall row :: row in front ==> row in some;
      AgreementsAreSame(rows, front, a, b);
      EntriesAreSame(rows, last, a, b);
      SameJoined(rows, a, b, AllAgreementEntries(front, a), AllAgreementEntries(front, b),
                 AgreementEntries(last, a), AgreementEntries(last, b));
    }
  }

  lemma GovernanceIsSame(stores: Stores, a: Actors, b: Actors)
    ensures SameLists(stores.agreements, a, b, Governance(stores, a), Governance(stores, b))
  {
    AgreementsAreSame(stores.agreements, stores.agreements, a, b);
    SameSelf(stores.agreements, a, b, AllProposalEntries(stores.proposals));
    SameJoined(stores.agreements, a, b, AllProposalEntries(stores.proposals), AllProposalEntries(stores.proposals),
               AllAgreementEntries(stores.agreements, a), AllAgreementEntries(stores.agreements, b));
  }

  lemma SameFirst(rows: seq<AgreementRow>, a: Actors, b: Actors, x: Entry, y: Entry, s: seq<Entry>, t: seq<Entry>)
    requires Same(rows, a, b, x, y) && SameLists(rows, a, b, s, t)
    ensures SameLists(rows, a, b, [x] + s, [y] + t)
  {
  }

  lemma {:induction false} SameInserted(rows: seq<AgreementRow>, a: Actors, b: Actors, x: Entry, y: Entry,
                                        s: seq<Entry>, t: seq<Entry>)
    requires Same(rows, a, b, x, y) && SameLists(rows, a, b, s, t)
    ensures SameLists(rows, a, b, Insert(x, s), Insert(y, t))
  {
    SameTimes(rows, a, b, x, y);
    if s != [] {
      SameTimes(rows, a, b, s[0], t[0]);
    }
    if s == [] || x.time >= s[0].time {
      SameFirst(rows, a, b, x, y, s, t);
    } else {
      SameInserted(rows, a, b, x, y, s[1..], t[1..]);
      SameFirst(rows, a, b, s[0], t[0], Insert(x, s[1..]), Insert(y, t[1..]));
    }
  }

  /** Sorting looks at times only. */
  lemma {:induction false} SameSorted(rows: seq<AgreementRow>, a: Actors, b: Actors, s: seq<Entry>, t: seq<Entry>)
    requires SameLists(rows, a, b, s, t)
    ensures SameLists(rows, a, b, StableSort(s), StableSort(t))
  {
    if s != [] {
      SameSorted(rows, a, b, s[1..], t[1..]);
      SameInserted(rows, a, b, s[0], t[0], StableSort(s[1..]), StableSort(t[1..]));
    }
  }

  /** All entries of the environment, newest first. */
  function Everything(stores: Stores, actors: Actors): seq<Entry> {
    StableSort(CommandEntries(stores.log) + Governance(stores, actors))
  }

  lemma EverythingIsSame(stores: Stores, a: Actors, b: Actors)
    ensures SameLists(stores.agreements, a, b, Everything(stores, a), Everything(stores, b))
  {
    var commands := CommandEntries(stores.log);
    GovernanceIsSame(stores, a, b);
    SameSelf(stores.agreements, a, b, commands);
    SameJoined(stores.agreements, a, b, commands, commands, Governance(stores, a), Governance(stores, b));
    SameSorted(stores.agreements, a, b, commands + Governance(stores, a), commands + Governance(stores, b));
  }

  // ---- A closing entry occurs under its own actor only -----------------------------------------------

  lemma {:induction false} AgreementEntryFrom(rows: seq<AgreementRow>, actors: Actors, e: Entry)
    requires e in AllAgreementEntries(rows, actors)
    ensures exists row :: row in rows && e in AgreementEntries(row, actors)
  {
    var front, last := rows[..|rows| - 1], rows[|rows| - 1];
    assert rows == front + [last];
    if e in AllAgreementEntries(front, actors) {
      AgreementEntryFrom(front, actors, e);
    }
  }

  lemma EverythingFrom(stores: Stores, actors: Actors, e: Entry)
    requires e in Everything(stores, actors) && e.kind == Agreement
    ensures exists row :: row in stores.agreements && e in AgreementEntries(row, actors)
  {
    var all := CommandEntries(stores.log) + Governance(stores, actors);
    StableSortSorts(all);
    assert e in multiset(StableSort(all)) && e in all;
    if e in CommandEntries(stores.log) {
      CommandEntriesFrom(stores.log, e);
    }
    assert e in AllAgreementEntries(stores.agreements, actors);
    AgreementEntryFrom(stores.agreements, actors, e);
  }

  lemma ClosingIsUnique(stores: Stores, row: AgreementRow, actors: Actors, e: Entry)
    requires DistinctAgreements(stores) && row in stores.agreements && ShowsCloser(row)
    requires e in Everything(stores, actors) && e.kind == Agreement && e.objectId == row.id && e.action == row.status
    ensures e == Closing(row, actors)
  {
    EverythingFrom(stores, actors, e);
    var other :| other in stores.agreements && e in AgreementEntries(other, actors);
    assert other.id == row.id;
  }

  lemma DisputesAreFresh(stores: Stores, a: Actors, b: Actors)
    requires DistinctAgreements(stores)
    ensures |Everything(stores, a)| == |Everything(stores, b)|
    ensures DifferFreshly(Everything(stores, a), Everything(stores, b))
  {
    var s, t := Everything(stores, a), Everything(stores, b);
    EverythingIsSame(stores, a, b);
    forall k | 0 <= k < |s| && s[k] != t[k] ensures s[k] !in t && t[k] !in s {
      assert Same(stores.agreements, a, b, s[k], t[k]);
      var row :| row in stores.agreements && Disputed(row, a, b) && s[k] == Closing(row, a) && t[k] == Closing(row, b);
      if s[k] in t {
        ClosingIsUnique(stores, row, b, s[k]);
      }
      if t[k] in s {
        ClosingIsUnique(stores, row, a, t[k]);
      }
    }
  }

  // ---- Which closing entries reach the page --------------------------------------------------------------

  /** At `k` stands the row's closing entry, fewer than `n` selected entries come before it, and it is selected. */
  ghost predicate ReachesAt(whole: seq<Entry>, f: Entry -> bool, n: nat, right: Entry, shown: Entry, k: int) {
    0 <= k < |whole| && whole[k] == right && |Keep(f, whole[..k])| < n && (f(right) || f(shown))
  }

  /**
   * The agreement's closing entry is among the first `n` selected entries of the whole feed, or would be under
   * the actor that the page shows.
   */
  ghost predicate Reaches(stores: Stores, row: AgreementRow, some: Actors, f: Entry -> bool, n: nat) {
    var all := ActorsOf(stores.log);
    exists k :: ReachesAt(Everything(stores, all), f, n, Closing(row, all), Closing(row, some), k)
  }

  lemma HarmlessIffUndisputed(stores: Stores, some: Actors, f: Entry -> bool, n: nat)
    requires DistinctAgreements(stores)
    ensures var all := ActorsOf(stores.log);
            && |Everything(stores, some)| == |Everything(stores, all)|
            && (AllHarmless(f, Everything(stores, some), Everything(stores, all), n)
                <==> forall row :: row in stores.agreements && Disputed(row, some, all) ==> !Reaches(stores, row, some, f, n))
  {
    var all := ActorsOf(stores.log);
    var s, t := Everything(stores, some), Everything(stores, all);
    EverythingIsSame(stores, some, all);
    assert |s| == |t|;
    if AllHarmless(f, s, t, n) {
      forall row | row in stores.agreements && Disputed(row, some, all) ensures !Reaches(stores, row, some, f, n) {
        forall k ensures !ReachesAt(t, f, n, Closing(row, all), Closing(row, some), k) {
          if 0 <= k < |t| && t[k] == Closing(row, all) {
            DisputeAt(stores, row, some, k);
            assert HarmlessAt(f, s, t, n, k);
          }
        }
      }
    } else {
      var k :| !HarmlessAt(f, s, t, n, k);
      assert Same(stores.agreements, some, all, s[k], t[k]);
      var row :| row in stores.agreements && Disputed(row, some, all) && s[k] == Closing(row, some) && t[k] == Closing(row, all);
      assert ReachesAt(t, f, n, Closing(row, all), Closing(row, some), k);
    }
  }

  lemma DisputeAt(stores: Stores, row: AgreementRow, some: Actors, k: nat)
    requires DistinctAgreements(stores) && row in stores.agreements && Disputed(row, some, ActorsOf(stores.log))
    requires |Everything(stores, some)| == |Everything(stores, ActorsOf(stores.log))|
    requires k < |Everything(stores, some)| && Everything(stores, ActorsOf(stores.log))[k] == Closing(row, ActorsOf(stores.log))
    ensures Everything(stores, some)[k] == Closing(row, some)
  {
    var all := ActorsOf(stores.log);
    var x, y := Everything(stores, some)[k], Closing(row, all);
    EverythingIsSame(stores, some, all);
    assert Same(stores.agreements, some, all, x, y);
    assert x in Everything(stores, some) && x.kind == Agreement && x.objectId == row.id && x.action == row.status;
    ClosingIsUnique(stores, row, some, x);
  }

  // ---- Losing commands cannot be made up for -----------------------------------------------------------------

  function IsCommand(): Entry -> bool {
    (e: Entry) => e.kind in {Command, Flow, Event}
  }

  lemma {:induction false} CountMerge(f: Entry -> bool, a: seq<Entry>, b: seq<Entry>)
    requires forall e :: e in a ==> f(e)
    requires forall e :: e in b ==> !f(e)
    ensures |Keep(f, Merge(a, b))| == |a|
  {
    if a == [] {
      KeepNone(f, b);
    } else if b == [] {
      KeepAll(f, a);
    } else if a[0].time >= b[0].time {
      CountMerge(f, a[1..], b);
      KeepStep(f, a[0], Merge(a[1..], b));
    } else {
      CountMerge(f, a, b[1..]);
      KeepStep(f, b[0], Merge(a, b[1..]));
    }
  }

  lemma {:induction false} MergeFrom(a: seq<Entry>, b: seq<Entry>, e: Entry)
    requires e in Merge(a, b)
    ensures e in a || e in b
  {
    if a != [] && b != [] {
      if a[0].time >= b[0].time {
        if e != a[0] {
          MergeFrom(a[1..], b, e);
        }
      } else if e != b[0] {
        MergeFrom(a, b[1..], e);
      }
    }
  }

  lemma CountPrefix(f: Entry -> bool, front: seq<Entry>, rest: seq<Entry>, n: nat)
    requires |front| <= n
    ensures |Keep(f, Take(front + rest, n))| >= |Keep(f, front)|
    ensures (forall e :: e in rest ==> !f(e)) ==> |Keep(f, Take(front + rest, n))| == |Keep(f, front)|
  {
    assert Take(front + rest, n) == front + Take(rest, n - |front|);
    KeepConcat(f, front, Take(rest, n - |front|));
    if forall e :: e in rest ==> !f(e) {
      KeepNone(f, Take(rest, n - |front|));
    }
  }

  /** `x` comes early on the second page, which then has one selected entry too many. */
  lemma EarlyLoss(f: Entry -> bool, front: seq<Entry>, back: seq<Entry>, front': seq<Entry>, x: Entry, back': seq<Entry>, n: nat)
    requires |front| <= n && |front'| < n && |Keep(f, front)| == |Keep(f, front')|
    requires f(x) && forall e :: e in back ==> !f(e)
    ensures Take(front + back, n) != Take(front' + ([x] + back'), n)
  {
    CountPrefix(f, front, back, n);
    CountPrefix(f, front' + [x], back', n);
    Assoc(front', [x], back');
    KeepConcat(f, front', [x]);
    KeepStep(f, x, []);
    assert [x] + [] == [x];
  }

  /** The first page reaches an old entry of the back, the second one does not. */
  lemma LateEntry(f: Entry -> bool, front: seq<Entry>, back: seq<Entry>, front': seq<Entry>, back': seq<Entry>, n: nat, time: int)
    requires |front| < n <= |front'|
    requires forall e :: e in back ==> !f(e) && e.time <= time
    requires forall e :: e in front' ==> f(e) || e.time > time
    ensures Take(front + back, n) != Take(front' + back', n)
  {
    var p := |front|;
    assert Take(front' + back', n) == front'[..n];
    if back != [] {
      assert Take(front + back, n)[p] == back[0] && back[0] in back;
      assert front'[..n][p] == front'[p] && front'[p] in front';
    }
  }

  lemma NewFrom(a: seq<Entry>, c: seq<Entry>, time: int)
    requires forall e :: e in a ==> IsCommand()(e)
    requires forall e :: e in c ==> e.time > time
    ensures forall e :: e in Merge(a, c) ==> IsCommand()(e) || e.time > time
  {
    forall e | e in Merge(a, c) ensures IsCommand()(e) || e.time > time {
      MergeFrom(a, c, e);
    }
  }

  ghost predicate AllCommands(s: seq<Entry>) {
    forall e :: e in s ==> IsCommand()(e)
  }

  ghost predicate NoCommands(s: seq<Entry>) {
    forall e :: e in s ==> !IsCommand()(e)
  }

  ghost predicate AllNewer(s: seq<Entry>, time: int) {
    forall e :: e in s ==> e.time > time
  }

  ghost predicate NoneNewer(s: seq<Entry>, time: int) {
    forall e :: e in s ==> e.time <= time
  }

  /** The same with the two pages already split at the loss `x`. */
  lemma SplitPagesDiffer(left: seq<Entry>, right: seq<Entry>, front: seq<Entry>, rest: seq<Entry>, front': seq<Entry>, x: Entry,
                         back: seq<Entry>, n: nat)
    requires left == front + rest && right == front' + ([x] + back) && |front| < n
    requires |Keep(IsCommand(), front)| == |Keep(IsCommand(), front')| && IsCommand()(x)
    requires NoCommands(rest) && NoneNewer(rest, x.time)
    requires forall e :: e in front' ==> IsCommand()(e) || e.time > x.time
    ensures Take(left, n) != Take(right, n)
  {
    if |front'| < n {
      EarlyLoss(IsCommand(), front, rest, front', x, back, n);
    } else {
      LateEntry(IsCommand(), front, rest, front', [x] + back, n, x.time);
    }
  }

  lemma SplitAt(a: seq<Entry>, lost: seq<Entry>, b1: seq<Entry>, b2: seq<Entry>, left: seq<Entry>, right: seq<Entry>)
    requires lost != [] && Ordered(a + lost) && AllCommands(a) && NoCommands(b1)
    requires AllNewer(b1, lost[0].time) && NoneNewer(b2, lost[0].time)
    requires left == Merge(a, b1 + b2) && right == Merge(a + lost, b1 + b2)
    ensures left == Merge(a, b1) + b2 && right == Merge(a, b1) + ([lost[0]] + Merge(lost[1..], b2))
    ensures |Merge(a, b1)| == |a| + |b1| && |Keep(IsCommand(), Merge(a, b1))| == |a|
    ensures forall e :: e in Merge(a, b1) ==> IsCommand()(e) || e.time > lost[0].time
  {
    MergeUpToTheLoss(a, lost, b1, b2);
    CountMerge(IsCommand(), a, b1);
    NewFrom(a, b1, lost[0].time);
  }

  /** Different other entries cannot hide a loss that belongs among the first `n`. */
  lemma LossShows(a: seq<Entry>, lost: seq<Entry>, b1: seq<Entry>, b2: seq<Entry>, c1: seq<Entry>, c2: seq<Entry>, n: nat,
                  left: seq<Entry>, right: seq<Entry>)
    requires lost != [] && Ordered(a + lost) && |a| + |b1| < n && AllCommands(a) && IsCommand()(lost[0])
    requires NoCommands(b1) && NoCommands(b2) && NoCommands(c1)
    requires AllNewer(b1, lost[0].time) && NoneNewer(b2, lost[0].time)
    requires AllNewer(c1, lost[0].time) && NoneNewer(c2, lost[0].time)
    requires left == Merge(a, b1 + b2) && right == Merge(a + lost, c1 + c2)
    ensures Take(left, n) != Take(right, n)
  {
    var left', right' := Merge(a, c1 + c2), Merge(a + lost, b1 + b2);
    SplitAt(a, lost, b1, b2, left, right');
    SplitAt(a, lost, c1, c2, left', right);
    SplitPagesDiffer(left, right, Merge(a, b1), b2, Merge(a, c1), lost[0], Merge(lost[1..], c2), n);
  }

  lemma SplitByTime(b: seq<Entry>, time: int) returns (b1: seq<Entry>, b2: seq<Entry>)
    requires Ordered(b) && NoCommands(b)
    ensures b == b1 + b2 && |b1| == NewerThan(b, time)
    ensures NoCommands(b1) && NoCommands(b2) && AllNewer(b1, time) && NoneNewer(b2, time)
  {
    var i := NewerThan(b, time);
    NewerThanSplits(b, time);
    b1, b2 := b[..i], b[i..];
  }

  lemma LossShowsAnyhow(a: seq<Entry>, lost: seq<Entry>, b: seq<Entry>, c: seq<Entry>, n: nat)
    requires lost != [] && Ordered(a + lost) && Ordered(b) && Ordered(c)
    requires |a| + NewerThan(b, lost[0].time) < n
    requires AllCommands(a) && AllCommands(lost) && NoCommands(b) && NoCommands(c)
    ensures Take(Merge(a, b), n) != Take(Merge(a + lost, c), n)
  {
    var b1, b2 := SplitByTime(b, lost[0].time);
    var c1, c2 := SplitByTime(c, lost[0].time);
    assert lost[0] in lost;
    LossShows(a, lost, b1, b2, c1, c2, n, Merge(a, b), Merge(a + lost, c));
  }

  lemma PartsAreSorted(stores: Stores, limit: nat, before: Option<int>, filter: Option<Entry -> bool>, actors: Actors)
    requires NewestFirstLog(stores.log)
    ensures var b := Others(stores, actors, before, filter); Ordered(b) && NoCommands(b)
    ensures var shown, lost := Shown(stores, limit, before, filter), Lost(stores, limit, before, filter);
            Ordered(shown + lost) && AllCommands(shown) && AllCommands(lost)
  {
    OthersAreGovernance(stores, actors, before, filter);
    ShownAndLost(stores, limit, before, filter);
    LostAreCommands(stores, limit, before, filter);
    ShownAreCommands(stores, limit, before, filter);
  }

  /** A page that agrees with the whole feed has not lost anything within it, whoever is named as closing. */
  lemma ExactPagesLoseNothing(stores: Stores, limit: nat, before: Option<int>, filter: Option<Entry -> bool>, actors: Actors,
                              n: nat)
    requires NewestFirstLog(stores.log)
    requires Take(Unsliced(stores, limit, before, filter), n) == Take(WholeFeed(stores, actors, before, filter), n)
    ensures LossLiesBeyond(stores, limit, before, filter, n)
  {
    var some := PageActors(stores, limit, before, filter);
    PartsAreSorted(stores, limit, before, filter, some);
    PartsAreSorted(stores, limit, before, filter, actors);
    UnslicedIsMerge(stores, limit, before, filter);
    WholeIsMerge(stores, limit, before, filter, actors);
    if !LossLiesBeyond(stores, limit, before, filter, n) {
      LossShowsAnyhow(Shown(stores, limit, before, filter), Lost(stores, limit, before, filter),
                      Others(stores, some, before, filter), Others(stores, actors, before, filter), n);
      assert false;
    }
  }

  lemma ShownAreCommands(stores: Stores, limit: nat, before: Option<int>, filter: Option<Entry -> bool>)
    ensures forall e :: e in Shown(stores, limit, before, filter) ==> e.kind in {Command, Flow, Event}
  {
    var rows := Fetched(stores.log, SourceLimit(limit, filter.Some?), before);
    KeepMembers(Selected(before, filter), CommandEntries(rows));
    forall e | e in Shown(stores, limit, before, filter) ensures e.kind in {Command, Flow, Event} {
      CommandEntriesFrom(rows, e);
    }
  }

  // ---- The page and the whole feed ------------------------------------------------------------------------------

  /** Every closing actor that reaches the first `n` entries is known on the page. */
  ghost predicate ClosersKnown(stores: Stores, limit: nat, before: Option<int>, filter: Option<Entry -> bool>, n: nat) {
    var m := SourceLimit(limit, filter.Some?);
    forall row :: row in stores.agreements && ShowsCloser(row)
                  && Reaches(stores, row, PageActors(stores, limit, before, filter), Selected(before, filter), n) ==>
      CloserKnown(row, stores.log, Skipped(stores.log, before), Reach(stores.log, m, before))
  }

  lemma ClosersKnownIff(stores: Stores, limit: nat, before: Option<int>, filter: Option<Entry -> bool>, n: nat)
    requires NewestFirstLog(stores.log) && DistinctAgreements(stores)
    ensures var some, all := PageActors(stores, limit, before, filter), ActorsOf(stores.log);
            Take(WholeFeed(stores, some, before, filter), n) == Take(WholeFeed(stores, all, before, filter), n)
            <==> ClosersKnown(stores, limit, before, filter, n)
  {
    var m := SourceLimit(limit, filter.Some?);
    var from, to := Skipped(stores.log, before), Reach(stores.log, m, before);
    var some, all, f := PageActors(stores, limit, before, filter), ActorsOf(stores.log), Selected(before, filter);
    DisputesAreFresh(stores, some, all);
    PagesAgreeIff(f, Everything(stores, some), Everything(stores, all), n);
    HarmlessIffUndisputed(stores, some, f, n);
    FetchedIsSlice(stores.log, m, before);
    forall row ensures ClosedBy(row, some) == ClosedBy(row, all) <==> CloserKnown(row, stores.log, from, to) {
      CloserIsRightIff(row, stores.log, from, to);
    }
  }

  /** The first `n` entries of the fetched material are those of the whole feed. */
  lemma ShowsWholeFeedIff(stores: Stores, limit: nat, before: Option<int>, filter: Option<Entry -> bool>, n: nat)
    requires NewestFirstLog(stores.log) && DistinctAgreements(stores)
    ensures Take(Unsliced(stores, limit, before, filter), n)
            == Take(WholeFeed(stores, ActorsOf(stores.log), before, filter), n)
            <==> LossLiesBeyond(stores, limit, before, filter, n) && ClosersKnown(stores, limit, before, filter, n)
  {
    TruncationShowsIff(stores, limit, before, filter, n);
    ClosersKnownIff(stores, limit, before, filter, n);
    if Take(Unsliced(stores, limit, before, filter), n) == Take(WholeFeed(stores, ActorsOf(stores.log), before, filter), n) {
      ExactPagesLoseNothing(stores, limit, before, filter, ActorsOf(stores.log), n);
    }
  }

  /**
   * With any cursor and filter, the page is the first `limit` entries of the untruncated feed if and only if no
   * lost command belongs on it and every closing actor that reaches it is known from the fetched rows.
   */
  lemma PageIsExactIff(stores: Stores, limit: nat, before: Option<int>, filter: Option<Entry -> bool>)
    requires NewestFirstLog(stores.log) && DistinctAgreements(stores)
    ensures Feed(stores, limit, before, filter) == Take(WholeFeed(stores, ActorsOf(stores.log), before, filter), limit)
            <==> LossLiesBeyond(stores, limit, before, filter, limit) && ClosersKnown(stores, limit, before, filter, limit)
  {
    ShowsWholeFeedIff(stores, limit, before, filter, limit);
  }

  /**
   * Without an audit row on the fetched page and with nothing filtered out, the page is the first `limit` entries
   * of the untruncated feed if and only if the closing actors that reach it are known all the same.
   */
  lemma PageIsExactWithoutTransitions(stores: Stores, limit: nat, before: Option<int>, filter: Option<Entry -> bool>)
    requires NewestFirstLog(stores.log) && DistinctAgreements(stores) && PassesAll(filter, limit)
    requires NoTransitions(Fetched(stores.log, SourceLimit(limit, filter.Some?), before))
    ensures Feed(stores, limit, before, filter) == Take(WholeFeed(stores, ActorsOf(stores.log), before, filter), limit)
            <==> ClosersKnown(stores, limit, before, filter, limit)
  {
    PageIsExactIff(stores, limit, before, filter);
    NoLossWithoutTransitions(stores, limit, before, filter);
  }

  // ---- A closing actor beyond the fetched rows --------------------------------------------------

  /** An agreement rejected at 20, proposed at 1. */
  function RejectedRow(consumer: string, provider: string): AgreementRow {
    AgreementRow("a", "rejected", consumer, provider, false, 1, 20, true)
  }

  /** As many command rows as one fetch holds. */
  function CommandRows(n: nat): (rows: seq<CommandRow>)
    ensures |rows| == n && forall i :: 0 <= i < n ==> rows[i] == CommandRow(10, "owner", Other(Command, "on", "d"))
  {
    seq(n, i requires 0 <= i < n => CommandRow(10, "owner", Other(Command, "on", "d")))
  }

  /** The audit row of the rejection comes right behind them. */
  function UnfetchedAudit(n: nat, closer: string, consumer: string, provider: string): Stores {
    Stores(CommandRows(n) + [CommandRow(5, closer, Transition(Some("a"), Some("rejected")))], [], [RejectedRow(consumer, provider)])
  }

  /** An entry newer than all others comes first. */
  lemma NewestComesFirst(s: seq<Entry>, x: Entry)
    requires x in s && forall e :: e in s ==> e == x || e.time < x.time
    ensures StableSort(s) != [] && StableSort(s)[0] == x
  {
    StableSortSorts(s);
    var t := StableSort(s);
    assert x in multiset(s) && x in multiset(t);
    var i :| 0 <= i < |t| && t[i] == x;
    assert t[0] in multiset(t) && t[0] in s;
  }

  lemma FirstIsKept(f: Entry -> bool, s: seq<Entry>, n: nat)
    requires s != [] && f(s[0]) && n > 0
    ensures Take(Keep(f, s), n) != [] && Take(Keep(f, s), n)[0] == s[0]
  {
  }

  lemma RejectedEntries(row: AgreementRow, actors: Actors, proposed: Entry)
    requires row.visible && row.status == "rejected"
    requires proposed == Entry(row.created, Agreement, row.consumer, "proposed", row.id)
    ensures AgreementEntries(row, actors) == [proposed, Closing(row, actors)]
  {
    assert row.status[0] == 'r' && "countered"[0] == 'c' && "proposed"[0] == 'p';
  }

  lemma GovernanceOfOne(stores: Stores, row: AgreementRow, actors: Actors)
    requires stores.proposals == [] && stores.agreements == [row]
    ensures Governance(stores, actors) == AgreementEntries(row, actors)
  {
    assert [row][..0] == [];
    assert AllAgreementEntries([row], actors) == AllAgreementEntries([], actors) + AgreementEntries(row, actors);
  }

  lemma ClosingIsNewest(commands: seq<Entry>, proposed: Entry, closing: Entry, f: Entry -> bool, n: nat)
    requires proposed.time < closing.time && forall e :: e in commands ==> e.time < closing.time
    requires f(closing) && n > 0
    ensures var page := Take(Keep(f, StableSort(commands + [proposed, closing])), n);
            page != [] && page[0] == closing
  {
    var all := commands + [proposed, closing];
    assert all[|commands| + 1] == closing;
    NewestComesFirst(all, closing);
    FirstIsKept(f, StableSort(all), n);
  }

  lemma CommandsAreOlder(rows: seq<CommandRow>, time: int)
    requires forall i :: 0 <= i < |rows| ==> rows[i].time < time
    ensures forall e :: e in CommandEntries(rows) ==> e.time < time
  {
    forall e | e in CommandEntries(rows) ensures e.time < time {
      CommandEntriesFrom(rows, e);
    }
  }

  lemma ClosingComesFirst(stores: Stores, rows: seq<CommandRow>, row: AgreementRow, actors: Actors, f: Entry -> bool, n: nat,
                          proposed: Entry)
    requires Governance(stores, actors) == AgreementEntries(row, actors) == [proposed, Closing(row, actors)]
    requires proposed.time < row.updated && forall i :: 0 <= i < |rows| ==> rows[i].time < row.updated
    requires f(Closing(row, actors)) && n > 0
    ensures var page := Take(Keep(f, StableSort(CommandEntries(rows) + Governance(stores, actors))), n);
            page != [] && page[0] == Closing(row, actors)
  {
    CommandsAreOlder(rows, row.updated);
    ClosingIsNewest(CommandEntries(rows), proposed, Closing(row, actors), f, n);
  }

  lemma {:induction false} CommandsNameNobody(rows: seq<CommandRow>)
    requires NoTransitions(rows)
    ensures ActorsOf(rows) == map[]
  {
    WithoutTransitions(rows);
  }

  lemma AuditNamesTheCloser(log: seq<CommandRow>, front: seq<CommandRow>, audit: CommandRow, closer: string)
    requires log == front + [audit] && NoTransitions(front)
    requires audit.payload == Transition(Some("a"), Some("rejected")) && audit.actor == closer
    ensures ActorsOf(log) == map[("a", "rejected") := Acted(closer, audit.time)]
  {
    CommandsNameNobody(front);
    assert log[..|front|] == front;
    assert ActorsOf(log) == Recorded(ActorsOf(front), audit);
  }

  /**
   * Pages without any audit row that name the wrong closing actor first: for every limit and filter that selects
   * the entry, when as many commands as one fetch holds are newer than the audit row.
   */
  lemma UnfetchedCloserIsWrong(closer: string, consumer: string, provider: string, limit: nat, filter: Option<Entry -> bool>)
    requires closer != provider && limit > 0
    requires Selected(None, filter)(Entry(20, Agreement, provider, "rejected", "a"))
    requires Selected(None, filter)(Entry(20, Agreement, closer, "rejected", "a"))
    ensures var stores := UnfetchedAudit(SourceLimit(limit, filter.Some?), closer, consumer, provider);
            var page, whole := Feed(stores, limit, None, filter), WholeFeed(stores, ActorsOf(stores.log), None, filter);
            && NewestFirstLog(stores.log) && DistinctAgreements(stores)
            && NoTransitions(Fetched(stores.log, SourceLimit(limit, filter.Some?), None))
            && page != [] && page[0] == Entry(20, Agreement, provider, "rejected", "a")
            && Take(whole, limit) != [] && Take(whole, limit)[0] == Entry(20, Agreement, closer, "rejected", "a")
  {
    var m, row := SourceLimit(limit, filter.Some?), RejectedRow(consumer, provider);
    var stores := UnfetchedAudit(m, closer, consumer, provider);
    ExampleActors(stores.log, CommandRows(m), stores.log[m], closer);
    assert Closing(row, map[]) == Entry(20, Agreement, provider, "rejected", "a");
    assert Closing(row, ActorsOf(stores.log)) == Entry(20, Agreement, closer, "rejected", "a");
    var proposed := Entry(1, Agreement, consumer, "proposed", "a");
    RejectedEntries(row, map[], proposed);
    RejectedEntries(row, ActorsOf(stores.log), proposed);
    GovernanceOfOne(stores, row, map[]);
    GovernanceOfOne(stores, row, ActorsOf(stores.log));
    ClosingComesFirst(stores, CommandRows(m), row, map[], Selected(None, filter), limit, proposed);
    ClosingComesFirst(stores, stores.log, row, ActorsOf(stores.log), Selected(None, filter), limit, proposed);
  }

  lemma ExampleActors(log: seq<CommandRow>, front: seq<CommandRow>, audit: CommandRow, closer: string)
    requires log == front + [audit] && NoTransitions(front) && NewestFirstLog(log)
    requires audit.payload == Transition(Some("a"), Some("rejected")) && audit.actor == closer
    ensures Fetched(log, |front|, None) == front && ActorsOf(front) == map[]
    ensures ActorsOf(log) == map[("a", "rejected") := Acted(closer, audit.time)]
  {
    FetchedIsSlice(log, |front|, None);
    assert log[0..|front|] == front;
    CommandsNameNobody(front);
    AuditNamesTheCloser(log, front, audit, closer);
  }
}
