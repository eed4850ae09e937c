/** The lenient verdict parser's search for the last top-level `{...}` in a model's answer. */
module JsonScanner {
  import opened Options

  /** The scanner between two characters; `start` is where the currently open object began. */
  datatype Scan = Scan(depth: nat, start: Option<nat>, inString: bool, escaped: bool, found: seq<(nat, nat)>)

  const FRESH := Scan(0, None, false, false, [])

  /** One character at position `i`. */
  function Step(s: Scan, ch: char, i: nat): Scan {
    if s.inString then
      if s.escaped then s.(escaped := false)
      else if ch == '\\' then s.(escaped := true)
      else if ch == '"' then s.(inString := false)
      else s
    else if ch == '"' then s.(inString := true)
    else if ch == '{' then s.(depth := s.depth + 1, start := if s.depth == 0 then Some(i) else s.start)
    else if ch == '}' && s.depth > 0 then
      s.(depth := s.depth - 1,
         found := if s.depth == 1 && s.start.Some? then s.found + [(s.start.value, i + 1)] else s.found)
    else s
  }

  /** Scanning `text`, whose first character stands at position `from`. */
  function ScanAll(s: Scan, text: string, from: nat): Scan {
    if text == "" then s
    else Step(ScanAll(s, text[..|text| - 1], from), text[|text| - 1], from + |text| - 1)
  }

  /** The top-level `{...}` slices of `content`, oldest first. */
  method CollectCandidates(content: string) returns (found: seq<(nat, nat)>)
    ensures found == ScanAll(FRESH, content, 0).found
  {
    var depth: nat, start: Option<nat>, inString, escaped := 0, None, false, false;
    found := [];
    for i := 0 to |content|
      invariant Scan(depth, start, inString, escaped, found) == ScanAll(FRESH, content[..i], 0)
    {
      assert content[..i + 1][..i] == content[..i];
      var ch := content[i];
      if inString {
        if escaped {
          escaped := false;
        } else if ch == '\\' {
          escaped := true;
        } else if ch == '"' {
          inString := false;
        }
      } else if ch == '"' {
        inString := true;
      } else if ch == '{' {
        if depth == 0 {
          start := Some(i);
        }
        depth := depth + 1;
      } else if ch == '}' && depth > 0 {
        depth := depth - 1;
        if depth == 0 && start.Some? {
          found := found + [(start.value, i + 1)];
        }
      }
    }
    assert content[..|content|] == content;
  }

  /** The newest candidate that `parse` accepts. */
  method LastJsonObject<T>(content: string, parse: string -> Option<T>) returns (result: Option<T>)
    ensures FoundOk(content, |content|, ScanAll(FRESH, content, 0).found) && IsLastParsed(content, parse, result)
  {
    var found := CollectCandidates(content);
    CandidatesAreBalancedAndOrdered(content);
    result := None;
    var k := |found|;
    while k > 0
      invariant 0 <= k <= |found| && result == None
      invariant forall j :: k <= j < |found| ==> Parsed(content, found[j], parse) == None
    {
      k := k - 1;
      assert IsCandidate(content, found[k]);
      result := parse(content[found[k].0..found[k].1]);
      if result.Some? {
        assert Parsed(content, found[k], parse) == result;
        return;
      }
    }
  }

  /** The answer is that of the newest candidate that `parse` accepts, or none when it accepts none. */
  ghost predicate IsLastParsed<T>(content: string, parse: string -> Option<T>, result: Option<T>) {
    var found := ScanAll(FRESH, content, 0).found;
    match result
    case None => forall k :: 0 <= k < |found| ==> Parsed(content, found[k], parse) == None
    case Some(_) => exists k :: 0 <= k < |found| && Parsed(content, found[k], parse) == result
                      && forall j :: k < j < |found| ==> Parsed(content, found[j], parse) == None
  }

  function Parsed<T>(content: string, slice: (nat, nat), parse: string -> Option<T>): Option<T> {
    if slice.0 <= slice.1 <= |content| then parse(content[slice.0..slice.1]) else None
  }

  // ---- Every candidate is a balanced slice ---------------------------------------

  /** Outside any object and any string. */
  predicate TopLevel(s: Scan) {
    s.depth == 0 && !s.inString && !s.escaped
  }

  /** A fresh scan of `text` returns to the top level at its end, and nowhere before. */
  ghost predicate Balanced(text: string) {
    && text != "" && TopLevel(ScanAll(FRESH, text, 0))
    && forall k :: 0 < k < |text| ==> ScanAll(FRESH, text[..k], 0).depth > 0
  }

  ghost predicate IsCandidate(content: string, slice: (nat, nat)) {
    && slice.0 < slice.1 <= |content| && content[slice.0] == '{' && content[slice.1 - 1] == '}'
    && TopLevel(ScanAll(FRESH, content[..slice.0], 0))
    && Balanced(content[slice.0..slice.1])
  }

  /** Same control state; only positions and candidates differ. */
  predicate SameControl(a: Scan, b: Scan) {
    a.depth == b.depth && a.inString == b.inString && a.escaped == b.escaped
  }

  lemma {:induction false} ControlIgnoresPosition(a: Scan, b: Scan, text: string, m: nat, n: nat)
    requires SameControl(a, b)
    ensures SameControl(ScanAll(a, text, m), ScanAll(b, text, n))
  {
    if text != "" {
      ControlIgnoresPosition(a, b, text[..|text| - 1], m, n);
    }
  }

  lemma {:induction false} ScanJoins(s: Scan, a: string, b: string, from: nat)
    ensures ScanAll(s, a + b, from) == ScanAll(ScanAll(s, a, from), b, from + |a|)
  {
    if b == "" {
      assert a + b == a;
    } else {
      ScanJoins(s, a, b[..|b| - 1], from);
      assert (a + b)[..|a + b| - 1] == a + b[..|b| - 1];
    }
  }

  /** The open object, if any, began at the top level and has been open ever since. */
  ghost predicate OpenSince(content: string, n: nat, start: nat)
    requires n <= |content|
  {
    && start < n && content[start] == '{' && TopLevel(ScanAll(FRESH, content[..start], 0))
    && forall k :: start < k <= n ==> ScanAll(FRESH, content[..k], 0).depth > 0
  }

  ghost predicate FoundOk(content: string, n: nat, found: seq<(nat, nat)>) {
    && (forall k :: 0 <= k < |found| ==> IsCandidate(content, found[k]) && found[k].1 <= n)
    && (forall j, k :: 0 <= j < k < |found| ==> found[j].1 <= found[k].0)
  }

  ghost predicate Before(found: seq<(nat, nat)>, start: nat) {
    forall k :: 0 <= k < |found| ==> found[k].1 <= start
  }

  /** What the scanner knows after `n` characters. */
  ghost predicate Sound(content: string, n: nat, s: Scan)
    requires n <= |content|
  {
    && (s.depth > 0 ==> s.start.Some? && OpenSince(content, n, s.start.value) && Before(s.found, s.start.value))
    && (s.escaped ==> s.inString)
    && FoundOk(content, n, s.found)
  }

  lemma {:induction false} ScanIsSound(content: string, n: nat)
    requires n <= |content|
    ensures Sound(content, n, ScanAll(FRESH, content[..n], 0))
  {
    if n > 0 {
      ScanIsSound(content, n - 1);
      assert content[..n][..n - 1] == content[..n - 1];
      SoundStep(content, n, ScanAll(FRESH, content[..n - 1], 0), ScanAll(FRESH, content[..n], 0));
    }
  }

  lemma SoundStep(content: string, n: nat, before: Scan, after: Scan)
    requires 0 < n <= |content| && before == ScanAll(FRESH, content[..n - 1], 0) && after == ScanAll(FRESH, content[..n], 0)
    requires after == Step(before, content[n - 1], n - 1) && Sound(content, n - 1, before)
    ensures Sound(content, n, after)
  {
    if after.depth > 0 {
      StaysOpen(content, n, before, after);
    }
    if after.found != before.found {
      CandidateCloses(content, n, before.start.value);
      OneMoreFound(content, n, before.found, (before.start.value, n));
    }
  }

  lemma OneMoreFound(content: string, n: nat, found: seq<(nat, nat)>, slice: (nat, nat))
    requires 0 < n && FoundOk(content, n - 1, found) && Before(found, slice.0)
    requires IsCandidate(content, slice) && slice.1 == n
    ensures FoundOk(content, n, found + [slice])
  {
  }

  lemma StaysOpen(content: string, n: nat, before: Scan, after: Scan)
    requires 0 < n <= |content| && before == ScanAll(FRESH, content[..n - 1], 0) && after == ScanAll(FRESH, content[..n], 0)
    requires after == Step(before, content[n - 1], n - 1) && after.depth > 0
    requires before.depth > 0 ==> before.start.Some? && OpenSince(content, n - 1, before.start.value)
    requires before.escaped ==> before.inString
    ensures after.start.Some? && OpenSince(content, n, after.start.value)
  {
  }

  /** From a top-level position on, scanning a slice alone or in place is the same but for positions. */
  lemma SliceScansAlone(content: string, start: nat, n: nat, k: nat)
    requires start + k <= n <= |content| && TopLevel(ScanAll(FRESH, content[..start], 0))
    ensures SameControl(ScanAll(FRESH, content[start..n][..k], 0), ScanAll(FRESH, content[..start + k], 0))
  {
    var part := content[start..n][..k];
    assert content[..start + k] == content[..start] + part;
    var top := ScanAll(FRESH, content[..start], 0);
    ScanJoins(FRESH, content[..start], part, 0);
    assert ScanAll(FRESH, content[..start + k], 0) == ScanAll(top, part, start);
    ControlIgnoresPosition(FRESH, top, part, 0, start);
  }

  lemma CandidateCloses(content: string, n: nat, start: nat)
    requires 0 < n <= |content| && OpenSince(content, n - 1, start)
    requires content[n - 1] == '}' && TopLevel(ScanAll(FRESH, content[..n], 0))
    ensures IsCandidate(content, (start, n))
  {
    var slice := content[start..n];
    forall k | 0 < k < |slice|
      ensures ScanAll(FRESH, slice[..k], 0).depth > 0
    {
      SliceScansAlone(content, start, n, k);
      assert ScanAll(FRESH, content[..start + k], 0).depth > 0;
    }
    SliceScansAlone(content, start, n, |slice|);
    assert slice[..|slice|] == slice && start + |slice| == n;
  }

  /** Candidates once found stay found. */
  lemma {:induction false} FoundStays(content: string, n: nat, m: nat, slice: (nat, nat))
    requires n <= m <= |content| && slice in ScanAll(FRESH, content[..n], 0).found
    ensures slice in ScanAll(FRESH, content[..m], 0).found
  {
    if n < m {
      FoundStays(content, n, m - 1, slice);
      assert content[..m][..m - 1] == content[..m - 1];
    }
  }

  /** Within a candidate the scanner never returns to the top level before its end. */
  lemma StaysDeep(content: string, slice: (nat, nat), k: nat)
    requires IsCandidate(content, slice) && slice.0 < k < slice.1
    ensures ScanAll(FRESH, content[..k], 0).depth > 0
  {
    SliceScansAlone(content, slice.0, slice.1, k - slice.0);
  }

  /** Just before its end, the open object is the candidate. */
  lemma OpenIsTheCandidate(content: string, slice: (nat, nat))
    requires IsCandidate(content, slice)
    ensures var s := ScanAll(FRESH, content[..slice.1 - 1], 0); s.depth > 0 && s.start == Some(slice.0)
  {
    var (i, j) := slice;
    var s := ScanAll(FRESH, content[..j - 1], 0);
    assert i < j - 1;
    StaysDeep(content, slice, j - 1);
    ScanIsSound(content, j - 1);
    var st := s.start.value;
    if i < st {
      StaysDeep(content, slice, st);
    }
  }

  lemma EndIsTopLevel(content: string, slice: (nat, nat))
    requires IsCandidate(content, slice)
    ensures TopLevel(ScanAll(FRESH, content[..slice.1], 0))
  {
    var text := content[slice.0..slice.1];
    assert text[..|text|] == text;
    SliceScansAlone(content, slice.0, slice.1, |text|);
  }

  lemma CandidateIsFound(content: string, slice: (nat, nat))
    requires IsCandidate(content, slice)
    ensures slice in ScanAll(FRESH, content, 0).found
  {
    var j := slice.1;
    OpenIsTheCandidate(content, slice);
    EndIsTopLevel(content, slice);
    assert content[..j][..j - 1] == content[..j - 1];
    var before := ScanAll(FRESH, content[..j - 1], 0);
    assert ScanAll(FRESH, content[..j], 0) == Step(before, '}', j - 1);
    FoundStays(content, j, |content|, slice);
    assert content[..|content|] == content;
  }

  /** A slice is collected if and only if it is a string-aware balanced slice found at the top level. */
  lemma FoundIffCandidate(content: string, slice: (nat, nat))
    ensures slice in ScanAll(FRESH, content, 0).found <==> IsCandidate(content, slice)
  {
    CandidatesAreBalancedAndOrdered(content);
    if IsCandidate(content, slice) {
      CandidateIsFound(content, slice);
    }
  }

  /** The collected candidates are disjoint, in order, and string-aware balanced slices found at the top level. */
  lemma CandidatesAreBalancedAndOrdered(content: string)
    ensures FoundOk(content, |content|, ScanAll(FRESH, content, 0).found)
  {
    assert content[..|content|] == content;
    ScanIsSound(content, |content|);
  }

  // ---- JSON text, as RFC 8259 writes it ----------------------------------------------

  /** An element of a string literal: a plain character, or an escape with the characters after its backslash. */
  datatype Piece = Plain(c: char) | Escape(c: char, hex: string)

  /** Insignificant white space may surround every value and every member name. */
  datatype Json =
    | Atom(text: string)
    | Str(pieces: seq<Piece>)
    | Arr(elements: seq<Json>)
    | Obj(members: seq<Member>)
    | Padded(before: string, value: Json, after: string)

  datatype Member = Member(before: string, name: seq<Piece>, after: string, value: Json)

  /** Section 7: quotation mark and backslash must be escaped; `\u` is followed by four hex digits. */
  predicate PieceOk(p: Piece) {
    match p
    case Plain(c) => c != '"' && c != '\\' && c as int >= 0x20
    case Escape(c, hex) =>
      if c == 'u' then |hex| == 4 && forall k :: 0 <= k < 4 ==> IsHex(hex[k]) else c in "\"\\/bfnrt" && hex == ""
  }

  predicate IsHex(c: char) {
    '0' <= c <= '9' || 'a' <= c <= 'f' || 'A' <= c <= 'F'
  }

  /** Numbers and literals, white space, commas, colons and square brackets. */
  predicate Neutral(text: string) {
    forall k :: 0 <= k < |text| ==> text[k] != '"' && text[k] != '{' && text[k] != '}'
  }

  predicate Valid(v: Json) {
    match v
    case Atom(text) => Neutral(text)
    case Str(pieces) => forall p :: p in pieces ==> PieceOk(p)
    case Arr(elements) => forall e :: e in elements ==> Valid(e)
    case Obj(members) => forall m :: m in members ==> MemberOk(m)
    case Padded(before, value, after) => Neutral(before) && Neutral(after) && Valid(value)
  }

  predicate MemberOk(m: Member) {
    Neutral(m.before) && Neutral(m.after) && (forall p :: p in m.name ==> PieceOk(p)) && Valid(m.value)
  }

  function PiecesText(pieces: seq<Piece>): string {
    if pieces == [] then ""
    else PiecesText(pieces[..|pieces| - 1]) + PieceText(pieces[|pieces| - 1])
  }

  function PieceText(p: Piece): string {
    match p
    case Plain(c) => [c]
    case Escape(c, hex) => ['\\', c] + hex
  }

  function StringText(pieces: seq<Piece>): string {
    ['"'] + PiecesText(pieces) + ['"']
  }

  function Text(v: Json): string {
    match v
    case Atom(text) => text
    case Str(pieces) => StringText(pieces)
    case Arr(elements) => "[" + ElementsText(elements) + "]"
    case Obj(members) => "{" + MembersText(members) + "}"
    case Padded(before, value, after) => before + Text(value) + after
  }

  function ElementsText(elements: seq<Json>): string {
    if elements == [] then ""
    else if |elements| == 1 then Text(elements[0])
    else Text(elements[0]) + "," + ElementsText(elements[1..])
  }

  function MembersText(members: seq<Member>): string {
    if members == [] then ""
    else if |members| == 1 then MemberText(members[0])
    else MemberText(members[0]) + "," + MembersText(members[1..])
  }

  function MemberText(m: Member): string {
    m.before + StringText(m.name) + m.after + ":" + Text(m.value)
  }

  // ---- Scanning JSON text ---------------------------------------------------------------

  /** Neither inside a string nor about to collect a candidate. */
  predicate Plainly(s: Scan) {
    !s.inString && !s.escaped
  }

  /** Wherever it stands, `text` leaves the scanner as it found it. */
  ghost predicate Inert(s: Scan, text: string) {
    forall i: nat :: ScanAll(s, text, i) == s
  }

  lemma InertJoin(s: Scan, a: string, b: string)
    requires Inert(s, a) && Inert(s, b)
    ensures Inert(s, a + b)
  {
    forall i: nat ensures ScanAll(s, a + b, i) == s {
      ScanJoins(s, a, b, i);
    }
  }

  lemma {:induction false} NeutralIsInert(s: Scan, text: string)
    requires Plainly(s) && Neutral(text)
    ensures Inert(s, text)
  {
    if text != "" {
      NeutralIsInert(s, text[..|text| - 1]);
    }
  }

  /** Inside a string, everything but quotation marks and backslashes is inert. */
  lemma {:induction false} InsideIsInert(s: Scan, text: string)
    requires s.inString && !s.escaped && forall k :: 0 <= k < |text| ==> text[k] != '"' && text[k] != '\\'
    ensures Inert(s, text)
  {
    if text != "" {
      InsideIsInert(s, text[..|text| - 1]);
    }
  }

  lemma EscapePairIsInert(s: Scan, c: char)
    requires s.inString && !s.escaped
    ensures Inert(s, ['\\', c])
  {
    var pair := ['\\', c];
    assert pair[..1] == ['\\'] && ['\\'][..0] == "";
    forall i: nat ensures ScanAll(s, pair, i) == s {
      assert ScanAll(s, pair[..1], i) == s.(escaped := true);
    }
  }

  lemma PieceIsInert(s: Scan, p: Piece)
    requires s.inString && !s.escaped && PieceOk(p)
    ensures Inert(s, PieceText(p))
  {
    match p
    case Plain(c) => InsideIsInert(s, [c]);
    case Escape(c, hex) =>
      EscapePairIsInert(s, c);
      InsideIsInert(s, hex);
      InertJoin(s, ['\\', c], hex);
  }

  lemma {:induction false} PiecesAreInert(s: Scan, pieces: seq<Piece>)
    requires s.inString && !s.escaped && forall p :: p in pieces ==> PieceOk(p)
    ensures Inert(s, PiecesText(pieces))
  {
    if pieces == [] {
      InsideIsInert(s, "");
    } else {
      var front, last := pieces[..|pieces| - 1], pieces[|pieces| - 1];
      PiecesAreInert(s, front);
      PieceIsInert(s, last);
      InertJoin(s, PiecesText(front), PieceText(last));
    }
  }

  lemma StringIsInert(s: Scan, pieces: seq<Piece>)
    requires Plainly(s) && forall p :: p in pieces ==> PieceOk(p)
    ensures Inert(s, StringText(pieces))
  {
    var body, inside := PiecesText(pieces), s.(inString := true);
    PiecesAreInert(inside, pieces);
    assert ['"'][..0] == "";
    forall i: nat ensures ScanAll(s, StringText(pieces), i) == s {
      ScanJoins(s, ['"'] + body, ['"'], i);
      ScanJoins(s, ['"'], body, i);
      assert ScanAll(s, ['"'], i) == inside;
    }
  }

  /** Inside an object, any JSON value is inert. */
  lemma {:induction false} NestedValueIsInert(s: Scan, v: Json)
    requires Plainly(s) && s.depth > 0 && Valid(v)
    ensures Inert(s, Text(v))
    decreases v, 0
  {
    match v
    case Atom(text) => NeutralIsInert(s, text);
    case Str(pieces) => StringIsInert(s, pieces);
    case Arr(elements) =>
      NeutralIsInert(s, "[");
      ElementsAreInert(s, elements);
      NeutralIsInert(s, "]");
      InertJoin(s, "[", ElementsText(elements));
      InertJoin(s, "[" + ElementsText(elements), "]");
    case Obj(members) =>
      MembersAreInert(s.(depth := s.depth + 1), members);
      forall i: nat ensures ScanAll(s, Text(v), i) == s {
        ObjectBody(s, members, i);
      }
    case Padded(before, value, after) =>
      NeutralIsInert(s, before);
      NestedValueIsInert(s, value);
      NeutralIsInert(s, after);
      InertJoin(s, before, Text(value));
      InertJoin(s, before + Text(value), after);
  }

  lemma {:induction false} ElementsAreInert(s: Scan, elements: seq<Json>)
    requires Plainly(s) && s.depth > 0 && forall e :: e in elements ==> Valid(e)
    ensures Inert(s, ElementsText(elements))
    decreases elements, 1
  {
    if elements == [] {
      NeutralIsInert(s, "");
    } else {
      NestedValueIsInert(s, elements[0]);
      if |elements| > 1 {
        NeutralIsInert(s, ",");
        ElementsAreInert(s, elements[1..]);
        InertJoin(s, Text(elements[0]), ",");
        InertJoin(s, Text(elements[0]) + ",", ElementsText(elements[1..]));
      }
    }
  }

  lemma {:induction false} MembersAreInert(s: Scan, members: seq<Member>)
    requires Plainly(s) && s.depth > 0 && forall m :: m in members ==> MemberOk(m)
    ensures Inert(s, MembersText(members))
    decreases members, 1
  {
    if members == [] {
      NeutralIsInert(s, "");
    } else {
      MemberIsInert(s, members[0]);
      if |members| > 1 {
        NeutralIsInert(s, ",");
        MembersAreInert(s, members[1..]);
        InertJoin(s, MemberText(members[0]), ",");
        InertJoin(s, MemberText(members[0]) + ",", MembersText(members[1..]));
      }
    }
  }

  lemma {:induction false} MemberIsInert(s: Scan, m: Member)
    requires Plainly(s) && s.depth > 0 && MemberOk(m)
    ensures Inert(s, MemberText(m))
    decreases m, 1
  {
    NeutralIsInert(s, m.before);
    StringIsInert(s, m.name);
    NeutralIsInert(s, m.after);
    NeutralIsInert(s, ":");
    NestedValueIsInert(s, m.value);
    InertJoin(s, m.before, StringText(m.name));
    InertJoin(s, m.before + StringText(m.name), m.after);
    InertJoin(s, m.before + StringText(m.name) + m.after, ":");
    InertJoin(s, m.before + StringText(m.name) + m.after + ":", Text(m.value));
  }

  /** Scanning `{...}` opens one level, keeps it through the members, and closes it at the last character. */
  lemma ObjectBody(s: Scan, members: seq<Member>, i: nat)
    requires Plainly(s) && Inert(Step(s, '{', i), MembersText(members))
    ensures ScanAll(s, Text(Obj(members)), i) == Step(Step(s, '{', i), '}', i + |Text(Obj(members))| - 1)
  {
    var body := MembersText(members);
    ScanJoins(s, "{" + body, "}", i);
    ScanJoins(s, "{", body, i);
    assert "{"[..0] == "" && "}"[..0] == "";
  }

  // ---- Main result ------------------------------------------------------------------------

  lemma ObjectIsFound(s: Scan, members: seq<Member>, n: nat)
    requires Valid(Obj(members)) && TopLevel(s)
    ensures var after := ScanAll(s, Text(Obj(members)), n);
            Plainly(after) && after.found == s.found + [(n, n + |Text(Obj(members))|)]
  {
    MembersAreInert(Step(s, '{', n), members);
    ObjectBody(s, members, n);
  }

  lemma TailIsIgnored(prefix: string, obj: string, tail: string)
    requires Plainly(ScanAll(ScanAll(FRESH, prefix, 0), obj, |prefix|)) && Neutral(tail)
    ensures ScanAll(FRESH, prefix + obj + tail, 0) == ScanAll(ScanAll(FRESH, prefix, 0), obj, |prefix|)
  {
    var n := |prefix + obj|;
    ScanJoins(FRESH, prefix, obj, 0);
    NeutralIsInert(ScanAll(FRESH, prefix + obj, 0), tail);
    assert ScanAll(ScanAll(FRESH, prefix + obj, 0), tail, n) == ScanAll(FRESH, prefix + obj, 0);
    ScanJoins(FRESH, prefix + obj, tail, 0);
  }

  /**
   * For any JSON object followed by text without braces or quotes: the last candidate is exactly that
   * object if and only if the text before it leaves the scanner at the top level.
   */
  lemma LastCandidateIsTheObject(prefix: string, members: seq<Member>, tail: string)
    requires Valid(Obj(members)) && Neutral(tail)
    ensures var obj := Text(Obj(members));
            var found := ScanAll(FRESH, prefix + obj + tail, 0).found;
            TopLevel(ScanAll(FRESH, prefix, 0))
            <==> found != [] && found[|found| - 1] == (|prefix|, |prefix| + |obj|)
  {
    var content := prefix + Text(Obj(members)) + tail;
    var found := ScanAll(FRESH, content, 0).found;
    if TopLevel(ScanAll(FRESH, prefix, 0)) {
      ObjectIsFound(ScanAll(FRESH, prefix, 0), members, |prefix|);
      TailIsIgnored(prefix, Text(Obj(members)), tail);
    } else if found != [] {
      CandidatesAreBalancedAndOrdered(content);
      assert IsCandidate(content, found[|found| - 1]);
      assert content[..|prefix|] == prefix;
    }
  }

  /** An object that `parse` accepts is what the caller gets, when the text before it leaves the scanner at the top level. */
  lemma AnswerIsTheObject<T>(prefix: string, members: seq<Member>, tail: string, parse: string -> Option<T>,
                                   result: Option<T>)
    requires Valid(Obj(members)) && Neutral(tail) && TopLevel(ScanAll(FRESH, prefix, 0))
    requires parse(Text(Obj(members))).Some? && IsLastParsed(prefix + Text(Obj(members)) + tail, parse, result)
    ensures result == parse(Text(Obj(members)))
  {
    var obj := Text(Obj(members));
    var content := prefix + obj + tail;
    var found := ScanAll(FRESH, content, 0).found;
    LastCandidateIsTheObject(prefix, members, tail);
    assert content[|prefix|..|prefix| + |obj|] == obj;
    assert Parsed(content, found[|found| - 1], parse) == parse(obj);
  }
}
