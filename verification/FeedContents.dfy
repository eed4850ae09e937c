/** What a page of the activity feed shows, in terms of the stored rows. */
module FeedContents {
  import opened Options
  import opened Listings
  import opened NewestFirst
  import opened ActivityFeed
  import opened FeedAudit

  // ---- What one row tells ----------------------------------------------------------------

  /** A command row tells what was done, by whom, on what; flows and events have kinds of their own. */
  predicate TellsCommand(row: CommandRow, e: Entry) {
    && row.payload.Other? && e.time == row.time && e.actor == row.actor
    && e.action == row.payload.action && e.objectId == row.payload.objectId
    && match row.payload.kind
       case Flow => e.kind == Flow
       case Event => e.kind == Event
       case _ => e.kind == Command
  }

  /** A proposal tells of its submission, its decision and its application, as far as they have come. */
  predicate TellsProposal(row: ProposalRow, e: Entry) {
    && e.kind == Proposal && e.objectId == row.id
    && (|| (e.action == "submitted" && e.time == row.created && e.actor == row.author)
        || (e.action == "decided" && row.decided == Some(e.time)
            && (if row.reviewer == None then e.actor == row.author else row.reviewer == Some(e.actor)))
        || (e.action == "applied" && row.applied == Some(e.time) && e.actor == row.author))
  }

  /**
   * An agreement tells the parties and the environment's owner, and nobody else, who proposed it and who brought it
   * into its present state: the provider when it is countered, else who the fetched audit rows or its shape name.
   */
  ghost predicate TellsAgreement(row: AgreementRow, page: seq<CommandRow>, e: Entry) {
    && row.visible && e.kind == Agreement && e.objectId == row.id
    && (|| (e.action == "proposed" && e.time == row.created && e.actor == row.consumer)
        || (row.status == "countered" && e.action == "countered" && e.time == row.updated && e.actor == row.provider)
        || (row.status !in {"proposed", "countered"} && e.action == row.status && e.time == row.updated
            && PageNames(page, row, e.actor)))
  }

  /** Some row tells it: a fetched command row, a proposal or an agreement. */
  ghost predicate IsTold(stores: Stores, page: seq<CommandRow>, e: Entry) {
    || (exists row :: row in page && TellsCommand(row, e))
    || (exists row :: row in stores.proposals && TellsProposal(row, e))
    || (exists row :: row in stores.agreements && TellsAgreement(row, page, e))
  }

  lemma {:induction false} CommandsAreTold(rows: seq<CommandRow>)
    ensures var told := Kept(rows, (row: CommandRow) => row.payload.Other?);
            && |CommandEntries(rows)| == |told|
            && forall k :: 0 <= k < |told| ==> TellsCommand(told[k], CommandEntries(rows)[k])
  {
    if rows != [] {
      CommandsAreTold(rows[..|rows| - 1]);
    }
  }

  lemma OneCommand(row: CommandRow, e: Entry, f: Entry)
    requires TellsCommand(row, e) && TellsCommand(row, f)
    ensures e == f
  {
  }

  lemma CommandEntriesTell(rows: seq<CommandRow>, e: Entry)
    ensures e in CommandEntries(rows) <==> exists row :: row in rows && TellsCommand(row, e)
  {
    var keep := (row: CommandRow) => row.payload.Other?;
    var told := Kept(rows, keep);
    CommandsAreTold(rows);
    KeptMembers(rows, keep);
    if e in CommandEntries(rows) {
      var k :| 0 <= k < |told| && CommandEntries(rows)[k] == e;
      assert told[k] in rows;
    }
    if row :| row in rows && TellsCommand(row, e) {
      var k :| 0 <= k < |told| && told[k] == row;
      OneCommand(row, e, CommandEntries(rows)[k]);
    }
  }

  lemma ProposalTells(row: ProposalRow, e: Entry)
    ensures e in ProposalEntries(row) <==> TellsProposal(row, e)
  {
  }

  lemma {:induction false} ProposalEntriesTell(rows: seq<ProposalRow>, e: Entry)
    ensures e in AllProposalEntries(rows) <==> exists row :: row in rows && TellsProposal(row, e)
  {
    if rows != [] {
      var front, last := rows[..|rows| - 1], rows[|rows| - 1];
      ProposalEntriesTell(front, e);
      ProposalTells(last, e);
      assert rows == front + [last];
    }
  }

  lemma AgreementTells(row: AgreementRow, page: seq<CommandRow>, e: Entry)
    ensures e in AgreementEntries(row, ActorsOf(page)) <==> TellsAgreement(row, page, e)
  {
    ClosedByIsNamed(row, page, e.actor);
  }

  lemma ClosedByIsNamed(row: AgreementRow, page: seq<CommandRow>, actor: string)
    ensures ClosedBy(row, ActorsOf(page)) == actor <==> PageNames(page, row, actor)
  {
    ActorIsOfTheLatest(page, row.id, row.status);
    OneLatest(page, row.id, row.status);
  }

  lemma OneLatest(page: seq<CommandRow>, agreement: string, to: string)
    ensures forall i, j :: IsLatest(page, i, agreement, to) && IsLatest(page, j, agreement, to) ==> i == j
  {
  }

  lemma {:induction false} AgreementEntriesTell(rows: seq<AgreementRow>, page: seq<CommandRow>, e: Entry)
    ensures e in AllAgreementEntries(rows, ActorsOf(page)) <==> exists row :: row in rows && TellsAgreement(row, page, e)
  {
    if rows != [] {
      var front, last := rows[..|rows| - 1], rows[|rows| - 1];
      AgreementEntriesTell(front, page, e);
      AgreementTells(last, page, e);
      assert rows == front + [last];
    }
  }

  // ---- What a page shows ------------------------------------------------------------------

  lemma {:induction false} RowsOlderAreKept(log: seq<CommandRow>, before: Option<int>)
    ensures RowsOlder(log, before) == Kept(log, (row: CommandRow) => before.Some? ==> row.time < before.value)
  {
    if log != [] {
      var front, last := log[..|log| - 1], log[|log| - 1];
      RowsOlderAreKept(front, before);
      RowsOlderSnoc(front, last, before);
      assert log == front + [last];
    }
  }

  function IfOlder(row: CommandRow, before: Option<int>): seq<CommandRow> {
    if RowIsOlder(row, before) then [row] else []
  }

  lemma RowsAssoc(a: seq<CommandRow>, b: seq<CommandRow>, c: seq<CommandRow>)
    ensures (a + b) + c == a + (b + c)
  {
  }

  lemma {:induction false} RowsOlderSnoc(front: seq<CommandRow>, last: CommandRow, before: Option<int>)
    ensures RowsOlder(front + [last], before) == RowsOlder(front, before) + IfOlder(last, before)
  {
    if front == [] {
      assert front + [last] == [last] && [last][1..] == [];
    } else {
      var rows, rest := front + [last], front[1..];
      assert rows[0] == front[0] && rows[1..] == rest + [last];
      RowsOlderSnoc(rest, last, before);
      RowsAssoc(IfOlder(front[0], before), RowsOlder(rest, before), IfOlder(last, before));
    }
  }

  /** The fetched rows: the first of those older than the cursor, as many as the page asks for, or 200 under a filter. */
  lemma FetchedAreTheFirst(stores: Stores, limit: nat, before: Option<int>, filtered: bool)
    ensures var older := Kept(stores.log, (row: CommandRow) => before.Some? ==> row.time < before.value);
            var most := if filtered then 200 else limit;
            Fetched(stores.log, SourceLimit(limit, filtered), before) == if |older| <= most then older else older[..most]
  {
    RowsOlderAreKept(stores.log, before);
  }

  /** What the request asks for: older than its cursor, and accepted by its filter. */
  predicate IsWanted(before: Option<int>, filter: Option<Entry -> bool>, e: Entry) {
    (before.Some? ==> e.time < before.value) && (filter.Some? ==> filter.value(e))
  }

  lemma UnslicedTells(stores: Stores, limit: nat, before: Option<int>, filter: Option<Entry -> bool>, e: Entry)
    ensures var page := Fetched(stores.log, SourceLimit(limit, filter.Some?), before);
            e in Unsliced(stores, limit, before, filter) <==> IsTold(stores, page, e) && IsWanted(before, filter, e)
  {
    var page := Fetched(stores.log, SourceLimit(limit, filter.Some?), before);
    var all := CommandEntries(page) + Governance(stores, ActorsOf(page));
    CommandEntriesTell(page, e);
    ProposalEntriesTell(stores.proposals, e);
    AgreementEntriesTell(stores.agreements, page, e);
    StableSortSorts(all);
    assert e in all <==> e in multiset(all);
    assert e in StableSort(all) <==> e in multiset(StableSort(all));
    KeepMembers(Selected(before, filter), StableSort(all));
  }

  lemma CutIsOlder(whole: seq<Entry>, limit: nat, e: Entry)
    requires Ordered(whole) && e in whole
    ensures e in Take(whole, limit)
            || (|Take(whole, limit)| == limit && forall s :: s in Take(whole, limit) ==> e.time <= s.time)
  {
    var i :| 0 <= i < |whole| && whole[i] == e;
    if i < limit {
      assert Take(whole, limit)[i] == e;
    }
  }

  lemma UnslicedIsOrdered(stores: Stores, limit: nat, before: Option<int>, filter: Option<Entry -> bool>)
    ensures Ordered(Unsliced(stores, limit, before, filter))
    ensures Feed(stores, limit, before, filter) == Take(Unsliced(stores, limit, before, filter), limit)
  {
    var page := Fetched(stores.log, SourceLimit(limit, filter.Some?), before);
    var all := CommandEntries(page) + Governance(stores, ActorsOf(page));
    StableSortSorts(all);
    KeepOrdered(Selected(before, filter), StableSort(all));
  }

  /** A page shows what some row tells and the request asks for, newest first, and leaves out none of it that is newer. */
  lemma PageShowsTheNewest(stores: Stores, limit: nat, before: Option<int>, filter: Option<Entry -> bool>)
    ensures var shown, page := Feed(stores, limit, before, filter), Fetched(stores.log, SourceLimit(limit, filter.Some?), before);
            && |shown| <= limit && Ordered(shown)
            && (forall e :: e in shown ==> IsTold(stores, page, e) && IsWanted(before, filter, e))
            && (forall e :: IsTold(stores, page, e) && IsWanted(before, filter, e) && e !in shown ==>
                  |shown| == limit && forall s :: s in shown ==> e.time <= s.time)
  {
    var whole, shown := Unsliced(stores, limit, before, filter), Feed(stores, limit, before, filter);
    var page := Fetched(stores.log, SourceLimit(limit, filter.Some?), before);
    UnslicedIsOrdered(stores, limit, before, filter);
    forall e | e in shown ensures IsTold(stores, page, e) && IsWanted(before, filter, e) {
      UnslicedTells(stores, limit, before, filter, e);
    }
    forall e | IsTold(stores, page, e) && IsWanted(before, filter, e) && e !in shown
      ensures |shown| == limit && forall s :: s in shown ==> e.time <= s.time
    {
      UnslicedTells(stores, limit, before, filter, e);
      CutIsOlder(whole, limit, e);
    }
  }
}
