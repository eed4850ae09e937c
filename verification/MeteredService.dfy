/** Which of a responder's offers an accepted collaboration is metered against. */
module MeteredService {
  import opened Options

  /** `zones` are the zones of the offer's backing devices. */
  datatype Offer = Offer(id: string, semanticType: string, actions: seq<string>, zones: set<string>)

  /** What is asked for; `matches` is the shared fuzzy capability matcher. */
  datatype Request = Request(required: seq<string>, matches: (string, string) -> bool, zone: Option<string>)

  datatype Scored = Scored(row: Offer, exact: nat, fuzzy: nat, named: bool, inZone: bool)

  /** `<` on strings: the first differing character decides, a proper prefix is smaller. */
  predicate Less(a: string, b: string) {
    if b == [] then false
    else if a == [] then true
    else a[0] < b[0] || (a[0] == b[0] && Less(a[1..], b[1..]))
  }

  function NonEmptyOnes(names: seq<string>): seq<string> {
    if names == [] then []
    else NonEmptyOnes(names[..|names| - 1]) + (if names[|names| - 1] == "" then [] else [names[|names| - 1]])
  }

  function Surface(row: Offer): seq<string> {
    [row.semanticType] + NonEmptyOnes(row.actions)
  }

  predicate Reaches(row: Offer, required: string, matches: (string, string) -> bool) {
    exists token :: token in Surface(row) && matches(token, required)
  }

  function CountExact(row: Offer, required: seq<string>): nat {
    if required == [] then 0
    else CountExact(row, required[..|required| - 1]) + (if required[|required| - 1] in Surface(row) then 1 else 0)
  }

  function CountFuzzy(row: Offer, required: seq<string>, matches: (string, string) -> bool): nat {
    if required == [] then 0
    else CountFuzzy(row, required[..|required| - 1], matches)
         + (if Reaches(row, required[|required| - 1], matches) then 1 else 0)
  }

  function Score(row: Offer, request: Request): Scored {
    Scored(row, CountExact(row, request.required), CountFuzzy(row, request.required, request.matches),
           row.semanticType in request.required, request.zone.Some? && request.zone.value in row.zones)
  }

  /** exact, fuzzy, named and in-zone descending, then semantic type and id ascending. */
  predicate Better(a: Scored, b: Scored) {
    || a.exact > b.exact
    || (a.exact == b.exact &&
        (|| a.fuzzy > b.fuzzy
         || (a.fuzzy == b.fuzzy &&
             (|| (a.named && !b.named)
              || (a.named == b.named &&
                  (|| (a.inZone && !b.inZone)
                   || (a.inZone == b.inZone &&
                       (|| Less(a.row.semanticType, b.row.semanticType)
                        || (a.row.semanticType == b.row.semanticType && Less(a.row.id, b.row.id))))))))))
  }

  /** The running best after looking at all of `services` in order. */
  function Best(services: seq<Offer>, request: Request): Option<Scored> {
    if services == [] then None
    else
      var best := Best(services[..|services| - 1], request);
      var last := Score(services[|services| - 1], request);
      if last.fuzzy > 0 && (best.None? || Better(last, best.value)) then Some(last) else best
  }

  method SelectMeteredService(services: seq<Offer>, request: Request) returns (chosen: Option<Scored>)
    ensures chosen == Best(services, request)
    ensures IsWinner(services, request, chosen)
    ensures IsPreferred(services, request, if chosen.Some? then Some(chosen.value.row) else None)
  {
    chosen := None;
    for k := 0 to |services|
      invariant chosen == Best(services[..k], request)
    {
      assert services[..k + 1][..k] == services[..k];
      var exact, fuzzy, named := 0, 0, false;
      for i := 0 to |request.required|
        invariant exact == CountExact(services[k], request.required[..i])
        invariant fuzzy == CountFuzzy(services[k], request.required[..i], request.matches)
        invariant named <==> services[k].semanticType in request.required[..i]
      {
        var r := request.required[i];
        assert request.required[..i + 1][..i] == request.required[..i];
        if r in Surface(services[k]) {
          exact := exact + 1;
        }
        if exists token :: token in Surface(services[k]) && request.matches(token, r) {
          fuzzy := fuzzy + 1;
        }
        named := named || r == services[k].semanticType;
      }
      assert request.required[..|request.required|] == request.required;
      if fuzzy != 0 {
        var scored := Scored(services[k], exact, fuzzy, named,
                             request.zone.Some? && request.zone.value in services[k].zones);
        if chosen.None? || Better(scored, chosen.value) {
          chosen := Some(scored);
        }
      }
    }
    assert services[..|services|] == services;
    BestIsWinner(services, request);
    ChosenIsPreferred(services, request);
  }

  /** What choosing means: a fuzzily matching offer that no other matching offer beats, or none matches. */
  ghost predicate IsWinner(services: seq<Offer>, request: Request, chosen: Option<Scored>) {
    match chosen
    case None => forall s :: s in services ==> Score(s, request).fuzzy == 0
    case Some(best) =>
      && best.row in services && best == Score(best.row, request) && best.fuzzy > 0
      && forall s :: s in services && Score(s, request).fuzzy > 0 ==> !Better(Score(s, request), best)
  }

  ghost predicate DistinctIds(services: seq<Offer>) {
    forall i, j :: 0 <= i < j < |services| ==> services[i].id != services[j].id
  }

  lemma {:induction false} LessIsTransitive(a: string, b: string, c: string)
    requires Less(a, b) && Less(b, c)
    ensures Less(a, c)
  {
    if a != [] && a[0] == b[0] == c[0] {
      LessIsTransitive(a[1..], b[1..], c[1..]);
    }
  }

  lemma {:induction false} LessIsTotal(a: string, b: string)
    ensures Less(a, b) || Less(b, a) || a == b
    ensures !(Less(a, b) && Less(b, a)) && !Less(a, a)
  {
    if a != [] && b != [] {
      LessIsTotal(a[1..], b[1..]);
      if a[0] == b[0] && a[1..] == b[1..] {
        assert a == [a[0]] + a[1..] && b == [b[0]] + b[1..];
      }
    }
    if a != [] {
      LessIsTotal(a[1..], a[1..]);
    }
  }

  /** The comparison is a strict total order on offers with distinct ids. */
  lemma BetterIsStrictTotalOrder(a: Scored, b: Scored, c: Scored)
    ensures !Better(a, a) && !(Better(a, b) && Better(b, a))
    ensures Better(a, b) && Better(b, c) ==> Better(a, c)
    ensures a.row.id != b.row.id ==> Better(a, b) || Better(b, a)
  {
    LessIsTotal(a.row.semanticType, b.row.semanticType);
    LessIsTotal(a.row.id, b.row.id);
    LessIsTotal(a.row.semanticType, a.row.semanticType);
    LessIsTotal(a.row.id, a.row.id);
    if Less(a.row.semanticType, b.row.semanticType) && Less(b.row.semanticType, c.row.semanticType) {
      LessIsTransitive(a.row.semanticType, b.row.semanticType, c.row.semanticType);
    }
    if Less(a.row.id, b.row.id) && Less(b.row.id, c.row.id) {
      LessIsTransitive(a.row.id, b.row.id, c.row.id);
    }
  }

  lemma {:induction false} BestIsWinner(services: seq<Offer>, request: Request)
    ensures IsWinner(services, request, Best(services, request))
  {
    if services != [] {
      var before, last := services[..|services| - 1], services[|services| - 1];
      BestIsWinner(before, request);
      assert services == before + [last];
      var best := Best(services, request);
      if best.Some? {
        forall s | s in services && Score(s, request).fuzzy > 0
          ensures !Better(Score(s, request), best.value)
        {
          var was := Best(before, request);
          BetterIsStrictTotalOrder(best.value, best.value, best.value);
          if was.Some? {
            BetterIsStrictTotalOrder(Score(s, request), best.value, was.value);
          }
        }
      }
    }
  }

  /** With distinct ids the choice does not depend on the order in which offers are listed. */
  lemma ChoiceIgnoresOrder(services: seq<Offer>, shuffled: seq<Offer>, request: Request)
    requires DistinctIds(services) && multiset(services) == multiset(shuffled)
    ensures Best(services, request) == Best(shuffled, request)
    ensures Best(services, request).Some? ==>
      forall s :: s in services && Score(s, request).fuzzy > 0 && s != Best(services, request).value.row ==>
        Better(Best(services, request).value, Score(s, request))
  {
    BestIsWinner(services, request);
    BestIsWinner(shuffled, request);
    assert forall s :: s in services <==> s in multiset(services);
    assert forall s :: s in shuffled <==> s in multiset(shuffled);
    var best := Best(services, request);
    if best.Some? {
      forall s | s in services && Score(s, request).fuzzy > 0 && s != best.value.row
        ensures Better(best.value, Score(s, request))
      {
        BetterIsStrictTotalOrder(best.value, Score(s, request), best.value);
      }
      var other := Best(shuffled, request);
      assert best.value.row in shuffled;
      assert other.value.row in services;
    }
  }

  // ---- The order of the criteria ---------------------------------------------------

  /** A token of the offer's executable surface: its type, or the name of one of its actions. */
  predicate Names(row: Offer, token: string) {
    token == row.semanticType || (token != "" && token in row.actions)
  }

  lemma {:induction false} NonEmptyMembers(names: seq<string>, token: string)
    ensures token in NonEmptyOnes(names) <==> token in names && token != ""
  {
    if names != [] {
      NonEmptyMembers(names[..|names| - 1], token);
      assert names == names[..|names| - 1] + [names[|names| - 1]];
    }
  }

  lemma SurfaceNames(row: Offer, token: string)
    ensures token in Surface(row) <==> Names(row, token)
  {
    NonEmptyMembers(row.actions, token);
  }

  /** The required capabilities, by position, that the offer names. */
  ghost function ExactHits(row: Offer, required: seq<string>): set<nat> {
    set i: nat | i < |required| && Names(row, required[i])
  }

  ghost predicate FuzzyHit(row: Offer, capability: string, matches: (string, string) -> bool) {
    exists token: string :: Names(row, token) && matches(token, capability)
  }

  /** Those that it reaches by the fuzzy matcher. */
  ghost function FuzzyHits(row: Offer, required: seq<string>, matches: (string, string) -> bool): set<nat> {
    set i: nat | i < |required| && FuzzyHit(row, required[i], matches)
  }

  lemma {:induction false} CountsAreExactHits(row: Offer, required: seq<string>)
    ensures CountExact(row, required) == |ExactHits(row, required)|
  {
    if required != [] {
      var n := |required| - 1;
      CountsAreExactHits(row, required[..n]);
      SurfaceNames(row, required[n]);
      assert ExactHits(row, required) == ExactHits(row, required[..n]) + if Names(row, required[n]) then {n} else {};
    }
  }

  lemma ReachesIsHit(row: Offer, capability: string, matches: (string, string) -> bool)
    ensures Reaches(row, capability, matches) <==> FuzzyHit(row, capability, matches)
  {
    if token :| token in Surface(row) && matches(token, capability) {
      SurfaceNames(row, token);
    }
    if token: string :| Names(row, token) && matches(token, capability) {
      SurfaceNames(row, token);
    }
  }

  lemma {:induction false} CountsAreFuzzyHits(row: Offer, required: seq<string>, matches: (string, string) -> bool)
    ensures CountFuzzy(row, required, matches) == |FuzzyHits(row, required, matches)|
  {
    if required != [] {
      var n := |required| - 1;
      CountsAreFuzzyHits(row, required[..n], matches);
      ReachesIsHit(row, required[n], matches);
      assert FuzzyHits(row, required, matches)
          == FuzzyHits(row, required[..n], matches) + if FuzzyHit(row, required[n], matches) then {n} else {};
    }
  }

  /** Lexicographic order: up to some position the strings agree, and there `a` ends or has the smaller character. */
  ghost predicate ComesFirst(a: string, b: string) {
    exists k: nat :: AgreesUpTo(a, b, k) && k < |b| && (k < |a| ==> a[k] < b[k])
  }

  predicate AgreesUpTo(a: string, b: string, k: nat) {
    k <= |a| && k <= |b| && a[..k] == b[..k]
  }

  lemma AgreesFirst(a: string, b: string, k: nat)
    requires AgreesUpTo(a, b, k)
    ensures k > 0 ==> a != [] && b != [] && a[0] == b[0]
  {
    if k > 0 {
      assert a[..k][0] == b[..k][0];
    }
  }

  lemma {:induction false} LessMeans(a: string, b: string)
    ensures Less(a, b) <==> ComesFirst(a, b)
  {
    if a == [] || b == [] || a[0] != b[0] {
      assert AgreesUpTo(a, b, 0);
      forall k: nat | AgreesUpTo(a, b, k) ensures k > 0 ==> a != [] && b != [] && a[0] == b[0] {
        AgreesFirst(a, b, k);
      }
    } else {
      LessMeans(a[1..], b[1..]);
      if k: nat :| AgreesUpTo(a[1..], b[1..], k) && k < |b[1..]| && (k < |a[1..]| ==> a[1..][k] < b[1..][k]) {
        assert a[..k + 1] == [a[0]] + a[1..][..k] && b[..k + 1] == [b[0]] + b[1..][..k];
        assert AgreesUpTo(a, b, k + 1);
      }
      if k: nat :| AgreesUpTo(a, b, k) && k < |b| && (k < |a| ==> a[k] < b[k]) {
        assert k > 0;
        assert a[1..][..k - 1] == a[..k][1..] && b[1..][..k - 1] == b[..k][1..];
        assert AgreesUpTo(a[1..], b[1..], k - 1);
      }
    }
  }

  /**
   * At least as good: more exact matches; of equally many, more fuzzy ones; then one whose type was asked for; then
   * one backed in the event's zone; then the first by type and id.
   */
  ghost predicate NoWorse(a: Offer, b: Offer, request: Request) {
    var exactA, exactB := |ExactHits(a, request.required)|, |ExactHits(b, request.required)|;
    var fuzzyA, fuzzyB := |FuzzyHits(a, request.required, request.matches)|, |FuzzyHits(b, request.required, request.matches)|;
    var namedA, namedB := a.semanticType in request.required, b.semanticType in request.required;
    var zone := if request.zone.Some? then {request.zone.value} else {};
    var inZoneA, inZoneB := zone * a.zones != {}, zone * b.zones != {};
    && exactB <= exactA
    && (exactA == exactB ==> fuzzyB <= fuzzyA)
    && (exactA == exactB && fuzzyA == fuzzyB ==> (namedB ==> namedA))
    && (exactA == exactB && fuzzyA == fuzzyB && namedA == namedB ==> (inZoneB ==> inZoneA))
    && (exactA == exactB && fuzzyA == fuzzyB && namedA == namedB && inZoneA == inZoneB ==>
          !ComesFirst(b.semanticType, a.semanticType) && (a.semanticType == b.semanticType ==> !ComesFirst(b.id, a.id)))
  }

  /** Only offers that reach something required are considered, and the preferred one is no worse than any of them. */
  ghost predicate IsPreferred(services: seq<Offer>, request: Request, chosen: Option<Offer>) {
    match chosen
    case None => forall s :: s in services ==> FuzzyHits(s, request.required, request.matches) == {}
    case Some(best) =>
      && best in services && FuzzyHits(best, request.required, request.matches) != {}
      && forall s :: s in services && FuzzyHits(s, request.required, request.matches) != {} ==> NoWorse(best, s, request)
  }

  lemma UnbeatenIsNoWorse(a: Offer, b: Offer, request: Request)
    requires !Better(Score(b, request), Score(a, request))
    ensures NoWorse(a, b, request)
  {
    CountsAreExactHits(a, request.required);
    CountsAreExactHits(b, request.required);
    CountsAreFuzzyHits(a, request.required, request.matches);
    CountsAreFuzzyHits(b, request.required, request.matches);
    LessMeans(b.semanticType, a.semanticType);
    LessMeans(b.id, a.id);
    ZonesMeet(request.zone, a.zones);
    ZonesMeet(request.zone, b.zones);
  }

  lemma ZonesMeet(zone: Option<string>, zones: set<string>)
    ensures var wanted := if zone.Some? then {zone.value} else {};
            wanted * zones != {} <==> zone.Some? && zone.value in zones
  {
    if zone.Some? && zone.value in zones {
      assert zone.value in {zone.value} * zones;
    }
  }

  /** The documented order of the criteria, for every list of offers. */
  lemma ChosenIsPreferred(services: seq<Offer>, request: Request)
    ensures var best := Best(services, request);
            IsPreferred(services, request, if best.Some? then Some(best.value.row) else None)
  {
    BestIsWinner(services, request);
    var best := Best(services, request);
    forall s | s in services
      ensures FuzzyHits(s, request.required, request.matches) == {} <==> Score(s, request).fuzzy == 0
      ensures best.Some? && Score(s, request).fuzzy > 0 ==> NoWorse(best.value.row, s, request)
    {
      CountsAreFuzzyHits(s, request.required, request.matches);
      if best.Some? && Score(s, request).fuzzy > 0 {
        UnbeatenIsNoWorse(best.value.row, s, request);
      }
    }
  }
}
