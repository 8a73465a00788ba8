/** Publishing and collecting app runtime events. */
module AppEvents {
  import opened Common
  import opened EventCursors
  import Decimals

  datatype BrokerError = InvalidCursor(detail: string) | CursorExpired(oldest: string) | OtherError(detail: string)

  datatype HttpError = BadCursor(value: string, detail: string) | Expired(oldest: string) | Unavailable(detail: string)

  function MapError(error: BrokerError, raw: string): (e: HttpError)
    ensures e.BadCursor? <==> error.InvalidCursor?
    ensures e.Expired? <==> error.CursorExpired?
    ensures e.BadCursor? ==> e.value == raw && e.detail == error.detail
    ensures e.Expired? ==> e.oldest == error.oldest
    ensures e.Unavailable? ==> e.detail == error.detail
  {
    match error
    case InvalidCursor(detail) => BadCursor(raw, detail)
    case CursorExpired(oldest) => Expired(oldest)
    case OtherError(detail) => Unavailable(detail)
  }

  /** What the broker answers for one subject: a subscription from a cursor, then a poll of it. */
  datatype Broker = Broker(
    subscribe: (Kind, nat) -> Option<BrokerError>,
    poll: (Kind, nat) -> Result<seq<Item>, BrokerError>)

  ghost predicate PollAnswers(broker: Broker, store: seq<Item>, subject: string, kind: Kind, from: nat) {
    broker.poll(kind, from).Ok? ==> broker.poll(kind, from).value == FirstOf(Pending(store, kind, subject, from))
  }

  /** A poll returns the first events of the kind and subject after the cursor, in order, up to the limit. */
  ghost predicate Delivers(broker: Broker, store: seq<Item>, subject: string) {
    forall kind, from :: PollAnswers(broker, store, subject, kind, from)
  }

  function Subject(workspace: string, app: string): (s: string) {
    workspace + "/" + app
  }

  /** The second workspace goes on where the first ends, up to a slash inside it. */
  ghost predicate LongerBy(workspace: string, app: string, longer: string, shorter: string, between: string) {
    longer == workspace + "/" + between && app == between + "/" + shorter
  }

  lemma SubjectSplit(workspace: string, app: string, other: string, its: string)
    requires |workspace| < |other| && Subject(workspace, app) == Subject(other, its)
    ensures LongerBy(workspace, app, other, its, other[|workspace| + 1..])
  {
    var s, n, m := Subject(workspace, app), |workspace|, |other|;
    assert s[..n] == workspace && s[n] == '/' && s[n + 1..] == app;
    assert s[..m] == other && s[m] == '/' && s[m + 1..] == its;
    var between := s[n + 1..m];
    assert other == s[..n] + [s[n]] + between && other[n + 1..] == between;
    assert app == between + [s[m]] + its;
  }

  /** Two applications share a subject only where a slash in a name can be read as the one between the names. */
  lemma SubjectExactly(workspace: string, app: string, other: string, its: string)
    ensures Subject(workspace, app) == Subject(other, its) <==>
            || (workspace == other && app == its)
            || (exists between :: LongerBy(workspace, app, other, its, between))
            || exists between :: LongerBy(other, its, workspace, app, between)
  {
    if Subject(workspace, app) == Subject(other, its) {
      if |workspace| < |other| {
        SubjectSplit(workspace, app, other, its);
      } else if |other| < |workspace| {
        SubjectSplit(other, its, workspace, app);
      } else {
        var s, n := Subject(workspace, app), |workspace|;
        assert s[..n] == workspace == other && s[n + 1..] == app == its;
      }
    }
    if between :| LongerBy(workspace, app, other, its, between) {
      assert Subject(workspace, app) == workspace + "/" + between + "/" + its;
    }
    if between :| LongerBy(other, its, workspace, app, between) {
      assert Subject(other, its) == other + "/" + between + "/" + app;
    }
  }

  /** Workspace names have no slash in them: then the subject tells workspace and application. */
  lemma SubjectsApart(workspace: string, app: string, other: string, its: string)
    requires '/' !in workspace && '/' !in other
    ensures Subject(workspace, app) == Subject(other, its) ==> workspace == other && app == its
  {
    SubjectExactly(workspace, app, other, its);
  }

  // ---- collecting ----------------------------------------------------------------------------------

  function FirstOfKind(store: seq<Item>, kind: Kind, subject: string, from: nat): (r: seq<Item>) {
    FirstOf(Pending(store, kind, subject, from))
  }

  /** What the first `n` kinds contribute, one kind after the other. */
  function Merged(store: seq<Item>, subject: string, from: nat, n: nat): (r: seq<Item>)
    requires n <= |KINDS|
  {
    if n == 0 then [] else Merged(store, subject, from, n - 1) + FirstOfKind(store, KINDS[n - 1], subject, from)
  }

  lemma FirstOfKindFacts(store: seq<Item>, kind: Kind, subject: string, from: nat)
    requires Increasing(store)
    ensures Increasing(FirstOfKind(store, kind, subject, from))
    ensures forall x :: x in FirstOfKind(store, kind, subject, from) ==>
              x in store && x.kind == kind && x.subject == subject
  {
    PendingIncrease(store, kind, subject, from);
    forall x | x in FirstOfKind(store, kind, subject, from)
      ensures x in store && x.kind == kind && x.subject == subject
    {
      assert x in Pending(store, kind, subject, from);
      PendingAre(store, kind, subject, from, x);
    }
  }

  lemma {:induction false} MergedAre(store: seq<Item>, subject: string, from: nat, n: nat, x: Item)
    requires n <= |KINDS| && Increasing(store)
    ensures x in Merged(store, subject, from, n)
            <==> IsOffered(store, subject, from, x) && exists i :: 0 <= i < n && KINDS[i] == x.kind
  {
    if n > 0 {
      MergedAre(store, subject, from, n - 1, x);
      FirstOfKindFacts(store, KINDS[n - 1], subject, from);
    }
  }

  lemma SameCursorSameItem(store: seq<Item>, x: Item, y: Item)
    requires Increasing(store) && x in store && y in store && x.cursor == y.cursor
    ensures x == y
  {
    var i :| 0 <= i < |store| && store[i] == x;
    var j :| 0 <= j < |store| && store[j] == y;
  }

  lemma ApartAppend(a: seq<Item>, b: seq<Item>)
    requires Apart(a) && Increasing(b) && forall x, y :: x in a && y in b ==> x.cursor != y.cursor
    ensures Apart(a + b)
  {
    forall i, j | 0 <= i < j < |a + b| ensures (a + b)[i].cursor != (a + b)[j].cursor {
      assert i < |a| ==> a[i] in a;
      assert j >= |a| ==> b[j - |a|] in b;
    }
  }

  lemma KindsApart(n: nat)
    requires 0 < n <= |KINDS|
    ensures forall i :: 0 <= i < n - 1 ==> KINDS[i] != KINDS[n - 1]
  {
  }

  lemma {:induction false} MergedApart(store: seq<Item>, subject: string, from: nat, n: nat)
    requires n <= |KINDS| && Increasing(store)
    ensures Apart(Merged(store, subject, from, n))
  {
    if n > 0 {
      var a, b := Merged(store, subject, from, n - 1), FirstOfKind(store, KINDS[n - 1], subject, from);
      MergedApart(store, subject, from, n - 1);
      FirstOfKindFacts(store, KINDS[n - 1], subject, from);
      KindsApart(n);
      forall x, y | x in a && y in b ensures x.cursor != y.cursor {
        MergedAre(store, subject, from, n - 1, x);
        FirstOfKindFacts(store, x.kind, subject, from);
        assert x in FirstOfKind(store, x.kind, subject, from);
        if x.cursor == y.cursor {
          SameCursorSameItem(store, x, y);
        }
      }
      ApartAppend(a, b);
    }
  }

  lemma EveryKindListed(kind: Kind)
    ensures exists i :: 0 <= i < |KINDS| && KINDS[i] == kind
  {
    match kind
    case StateChanged => assert KINDS[0] == kind;
    case CapabilityInvoked => assert KINDS[1] == kind;
    case CapabilityResult => assert KINDS[2] == kind;
    case ErrorEvent => assert KINDS[3] == kind;
  }

  /** Sorting the four contributions puts the offered events back into publishing order. */
  lemma SortedMergeIsOffered(store: seq<Item>, subject: string, from: nat)
    requires Increasing(store)
    ensures SortItems(Merged(store, subject, from, |KINDS|)) == Offered(store, subject, from)
  {
    var merged := Merged(store, subject, from, |KINDS|);
    MergedApart(store, subject, from, |KINDS|);
    SortApart(merged);
    OfferedIncrease(store, subject, from);
    forall x ensures x in SortItems(merged) <==> x in Offered(store, subject, from) {
      MergedAre(store, subject, from, |KINDS|, x);
      EveryKindListed(x.kind);
      OfferedAre(store, subject, from, x);
    }
    IncreasingUnique(SortItems(merged), Offered(store, subject, from));
  }

  /** The event is of the application by its subject, or by what its data name. */
  predicate Matches(x: Item, workspace: string, app: string) {
    x.subject == Subject(workspace, app) || x.data == Data(Some(workspace), Some(app))
  }

  function AllOf(items: seq<Item>, workspace: string, app: string): (r: seq<Item>) {
    if items == [] then []
    else
      var last := items[|items| - 1];
      AllOf(items[..|items| - 1], workspace, app) + if Matches(last, workspace, app) then [last] else []
  }

  lemma {:induction false} AllMatch(items: seq<Item>, workspace: string, app: string)
    requires forall x :: x in items ==> x.subject == Subject(workspace, app)
    ensures AllOf(items, workspace, app) == items
  {
    if items != [] {
      AllMatch(items[..|items| - 1], workspace, app);
    }
  }

  /** These places hold the events with the subject of the application or with data that name it. */
  ghost predicate PlacesOf(items: seq<Item>, workspace: string, app: string, at: seq<nat>) {
    && (forall i, j :: 0 <= i < j < |at| ==> at[i] < at[j])
    && (forall j :: 0 <= j < |at| ==> at[j] < |items|)
    && forall i :: 0 <= i < |items| ==>
         (i in at <==> items[i].subject == workspace + "/" + app
                       || (items[i].data.workspace == Some(workspace) && items[i].data.app == Some(app)))
  }

  /** What is kept is what stands in those places, in order. */
  lemma {:induction false} KeptExactly(items: seq<Item>, workspace: string, app: string) returns (at: seq<nat>)
    ensures PlacesOf(items, workspace, app, at) && |AllOf(items, workspace, app)| == |at|
    ensures forall j :: 0 <= j < |at| ==> AllOf(items, workspace, app)[j] == items[at[j]]
  {
    at := [];
    if items != [] {
      var n := |items| - 1;
      at := KeptExactly(items[..n], workspace, app);
      assert items == items[..n] + [items[n]];
      if Matches(items[n], workspace, app) {
        at := at + [n];
      }
    }
  }

  /** The events of the application that a poll returned. */
  method KeepMatching(items: seq<Item>, workspace: string, app: string, before: seq<Item>) returns (after: seq<Item>)
    ensures after == before + AllOf(items, workspace, app)
  {
    after := before;
    for i := 0 to |items|
      invariant after == before + AllOf(items[..i], workspace, app)
    {
      assert items[..i + 1][..i] == items[..i];
      if Matches(items[i], workspace, app) {
        after := after + [items[i]];
      }
    }
    assert items[..|items|] == items;
  }

  // ---- when the broker fails -----------------------------------------------------------------------

  /** A cursor as it is written in a message. */
  function CursorText(n: nat): (s: string) {
    (if n < 10 then "" else CursorText(n / 10)) + [(n % 10 + 48) as char]
  }

  /** It is the number in decimal, without leading zeros. */
  lemma {:induction false} CursorTextExactly(n: nat) returns (digits: seq<Decimals.Digit>)
    ensures |digits| == |CursorText(n)| > 0 && Decimals.IntOf(digits) == n
    ensures forall i :: 0 <= i < |digits| ==> CursorText(n)[i] as int == '0' as int + digits[i]
    ensures digits[0] == 0 ==> n == 0 && |digits| == 1
  {
    if n < 10 {
      digits := [n];
      assert digits[..0] == [];
    } else {
      var front := CursorTextExactly(n / 10);
      digits := front + [n % 10];
      assert digits[..|front|] == front;
    }
  }

  /** What a reader is told when the broker refuses the subscription of a kind, or its poll. */
  function KindError(broker: Broker, log: seq<Entry>, kind: Kind, from: nat,
                     lastId: Option<string>): (e: Option<HttpError>) {
    var start := PerKindCursor(log, kind, from);
    var refused, poll := broker.subscribe(kind, start), broker.poll(kind, start);
    if refused.Some? then Some(MapError(refused.value, if lastId.Some? then lastId.value else CursorText(start)))
    else if poll.Err? then Some(MapError(poll.error, if lastId.Some? then lastId.value else "0"))
    else None
  }

  /** The text that an error about a cursor shows: the reader's own, else the one sent with the request that failed. */
  function Shown(lastId: Option<string>, sent: string): (s: string) {
    if lastId.Some? then lastId.value else sent
  }

  /** Which error a reader gets, from which of the two answers, and the cursor that it shows. */
  lemma KindErrorExactly(broker: Broker, log: seq<Entry>, kind: Kind, from: nat, lastId: Option<string>, e: HttpError)
    ensures var start := PerKindCursor(log, kind, from);
      var refused, poll := broker.subscribe(kind, start), broker.poll(kind, start);
      KindError(broker, log, kind, from, lastId) == Some(e) <==>
      match e
      case BadCursor(value, detail) =>
        || (refused == Some(InvalidCursor(detail)) && value == Shown(lastId, CursorText(start)))
        || (refused == None && poll == Err(InvalidCursor(detail)) && value == Shown(lastId, "0"))
      case Expired(oldest) =>
        refused == Some(CursorExpired(oldest)) || (refused == None && poll == Err(CursorExpired(oldest)))
      case Unavailable(detail) =>
        refused == Some(OtherError(detail)) || (refused == None && poll == Err(OtherError(detail)))
  {
  }

  /** The error of the first kind that the broker fails for. */
  ghost predicate FirstFailure(broker: Broker, log: seq<Entry>, from: nat, lastId: Option<string>, e: HttpError) {
    exists i ::
      && 0 <= i < |KINDS| && NoneFails(broker, log, from, lastId, i)
      && KindError(broker, log, KINDS[i], from, lastId) == Some(e)
  }

  ghost predicate NoneFails(broker: Broker, log: seq<Entry>, from: nat, lastId: Option<string>, n: nat)
    requires n <= |KINDS|
  {
    forall i :: 0 <= i < n ==> KindError(broker, log, KINDS[i], from, lastId).None?
  }

  /** A kind is subscribed to from the last event of it that the reader has seen. */
  method CollectKind(broker: Broker, log: seq<Entry>, ghost store: seq<Item>, workspace: string, app: string,
                     kind: Kind,
                     from: nat, merged: seq<Item>, lastId: Option<string>)
    returns (r: Result<seq<Item>, HttpError>)
    requires Delivers(broker, store, Subject(workspace, app)) && Mirrors(log, store) && Increasing(store)
    ensures r.Ok? ==> r.value == merged + FirstOfKind(store, kind, Subject(workspace, app), from)
    ensures KindError(broker, log, kind, from, lastId) == if r.Ok? then None else Some(r.error)
  {
    ghost var subject := Subject(workspace, app);
    var start := PerKindCursor(log, kind, from);
    var refused := broker.subscribe(kind, start);
    if refused.Some? {
      return Err(MapError(refused.value, if lastId.Some? then lastId.value else CursorText(start)));
    }
    var poll := broker.poll(kind, start);
    if poll.Err? {
      return Err(MapError(poll.error, if lastId.Some? then lastId.value else "0"));
    }
    PerKindPending(log, store, kind, subject, from);
    assert PollAnswers(broker, store, subject, kind, start);
    FirstOfKindFacts(store, kind, subject, from);
    AllMatch(poll.value, workspace, app);
    var all := KeepMatching(poll.value, workspace, app, merged);
    return Ok(all);
  }

  /** What is collected from a cursor, merged back into publishing order; `check` validates the reader's last id. */
  method Collect(broker: Broker, log: seq<Entry>, ghost store: seq<Item>, workspace: string, app: string,
                 lastId: Option<string>, check: string -> Result<nat, HttpError>)
    returns (r: Result<seq<Item>, HttpError>)
    requires Delivers(broker, store, Subject(workspace, app)) && Mirrors(log, store) && Increasing(store)
    ensures lastId.Some? && check(lastId.value).Err? ==> r == Err(check(lastId.value).error)
    ensures !(lastId.Some? && check(lastId.value).Err?) ==>
              var from := if lastId.Some? then check(lastId.value).value else 0;
              && (r.Ok? <==> NoneFails(broker, log, from, lastId, |KINDS|))
              && (r.Ok? ==> r.value == Offered(store, Subject(workspace, app), from))
              && (r.Err? ==> FirstFailure(broker, log, from, lastId, r.error))
  {
    if lastId.Some? && check(lastId.value).Err? {
      return Err(check(lastId.value).error);
    }
    var from := if lastId.Some? then check(lastId.value).value else 0;
    var merged: seq<Item> := [];
    for i := 0 to |KINDS|
      invariant merged == Merged(store, Subject(workspace, app), from, i) && NoneFails(broker, log, from, lastId, i)
    {
      var more := CollectKind(broker, log, store, workspace, app, KINDS[i], from, merged, lastId);
      if more.Err? {
        return more;
      }
      merged := more.value;
    }
    SortedMergeIsOffered(store, Subject(workspace, app), from);
    return Ok(SortItems(merged));
  }

  // ---- publishing ----------------------------------------------------------------------------------

  datatype Session = Session(app: string, session: string, state: string, timestamp: string, output: Option<string>)

  /** The publisher's sequence number and logs, with what the broker has accepted. */
  class Publisher {
    var sequence: nat
    var log: seq<Entry>
    var sessions: seq<Session>
    ghost var store: seq<Item>

    ghost predicate Valid()
      reads this
    {
      && sequence <= U64_MAX && Mirrors(log, store) && Increasing(store) && |sessions| == |log|
      && forall i :: 0 <= i < |log| ==> 0 < log[i].cursor <= sequence
    }

    constructor ()
      ensures Valid() && sequence == 0 && log == [] && sessions == [] && store == []
    {
      sequence, log, sessions, store := 0, [], [], [];
    }

    /** A cursor is used up even when the broker refuses the event; the logs follow what it accepted. */
    method Publish(workspace: string, app: string, session: string, signal: string, state: string, timestamp: string,
                   output: Option<string>, data: Data, id: nat, accepted: bool)
      returns (ok: bool)
      requires Valid()
      modifies this
      ensures ok == accepted
      ensures sequence == if old(sequence) < U64_MAX then old(sequence) + 1 else U64_MAX
      ensures !accepted ==> log == old(log) && sessions == old(sessions) && store == old(store)
      ensures accepted ==> && log == old(log) + [Entry(sequence, KindOf(signal))]
                           && sessions == old(sessions) + [Session(app, session, state, timestamp, output)]
                           && store == old(store) + [Item(sequence, id, KindOf(signal), Subject(workspace, app), data)]
      ensures Valid() <==> !accepted || forall i :: 0 <= i < |old(log)| ==> old(log)[i].cursor < U64_MAX
    {
      sequence := if sequence < U64_MAX then sequence + 1 else U64_MAX;
      var cursor, kind := sequence, KindOf(signal);
      if !accepted {
        return false;
      }
      assert forall i :: 0 <= i < |log| ==> (log + [Entry(cursor, kind)])[i] == log[i];
      assert forall i :: 0 <= i < |log| ==> log[i].cursor == store[i].cursor;
      log := log + [Entry(cursor, kind)];
      sessions := sessions + [Session(app, session, state, timestamp, output)];
      store := store + [Item(cursor, id, kind, Subject(workspace, app), data)];
      assert Increasing(store) ==> forall i :: 0 <= i < |old(log)| ==> store[i].cursor < store[|old(log)|].cursor;
      assert forall i :: 0 <= i < |old(log)| ==> store[i].cursor == old(log)[i].cursor;
      return true;
    }
  }

  /** Any publisher one cursor before the greatest accepts two events under the greatest. */
  method GreatestCursorRepeats(p: Publisher, workspace: string, app: string)
    requires p.Valid() && p.sequence == U64_MAX - 1
    modifies p
    ensures |p.store| == |old(p.store)| + 2 && p.store[..|old(p.store)|] == old(p.store)
    ensures p.store[|p.store| - 2].cursor == p.store[|p.store| - 1].cursor == U64_MAX && !Increasing(p.store)
  {
    var data := Data(Some(workspace), Some(app));
    var first := p.Publish(workspace, app, "session", "state_changed", "running", "", None, data, 0, true);
    var second := p.Publish(workspace, app, "session", "state_changed", "done", "", None, data, 1, true);
  }
}
