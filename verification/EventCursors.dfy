/**
 * App runtime events: published under one global cursor, collected per event type from a broker, merged back and
 * resumed from the cursor of an event already seen.
 */
module EventCursors {
  import opened Common

  const U64_MAX: nat := 0xFFFF_FFFF_FFFF_FFFF
  const POLL_LIMIT: nat := 1024

  datatype Kind = StateChanged | CapabilityInvoked | CapabilityResult | ErrorEvent

  const KINDS: seq<Kind> := [StateChanged, CapabilityInvoked, CapabilityResult, ErrorEvent]

  function KindOf(signal: string): (k: Kind) {
    if signal == "state_changed" then StateChanged
    else if signal == "capability_invoked" then CapabilityInvoked
    else if signal == "capability_result" then CapabilityResult
    else ErrorEvent
  }

  /** The signal that readers are told for an event of this kind. */
  function SignalOf(kind: Kind): (s: string) {
    match kind
    case StateChanged => "state_changed"
    case CapabilityInvoked => "capability_invoked"
    case CapabilityResult => "capability_result"
    case ErrorEvent => "error"
  }

  /** Readers are told the signal that was published; any signal but three is an error and is told as one. */
  lemma SignalsExactly(signal: string)
    ensures SignalOf(KindOf(signal)) ==
            if signal in {"state_changed", "capability_invoked", "capability_result"} then signal else "error"
    ensures KindOf(signal) == ErrorEvent <==> signal !in {"state_changed", "capability_invoked", "capability_result"}
  {
  }

  lemma SignalRoundTrip(kind: Kind)
    ensures KindOf(SignalOf(kind)) == kind
  {
  }

  /** The workspace and the application that the data of an event name. */
  datatype Data = Data(workspace: Option<string>, app: Option<string>)

  /** An event as the broker keeps it; `id` stands for the place of its identifier in the order of identifiers. */
  datatype Item = Item(cursor: nat, id: nat, kind: Kind, subject: string, data: Data)

  datatype Entry = Entry(cursor: nat, kind: Kind)

  // ---- what a reader should get --------------------------------------------------------------------

  /** The events of a subject after a cursor, in publishing order. */
  function Events(store: seq<Item>, subject: string, from: nat): (r: seq<Item>) {
    if store == [] then []
    else
      var last := store[|store| - 1];
      Events(store[..|store| - 1], subject, from) + if last.subject == subject && last.cursor > from then [last] else []
  }

  /** Those of one kind. */
  function Pending(store: seq<Item>, kind: Kind, subject: string, from: nat): (r: seq<Item>) {
    if store == [] then []
    else
      var last := store[|store| - 1];
      Pending(store[..|store| - 1], kind, subject, from)
      + if last.kind == kind && last.subject == subject && last.cursor > from then [last] else []
  }

  predicate Increasing(items: seq<Item>) {
    forall i, j :: 0 <= i < j < |items| ==> items[i].cursor < items[j].cursor
  }

  function FirstOf(items: seq<Item>): (r: seq<Item>) {
    if |items| <= POLL_LIMIT then items else items[..POLL_LIMIT]
  }

  // ---- filters -------------------------------------------------------------------------------------

  lemma {:induction false} EventsAre(store: seq<Item>, subject: string, from: nat, x: Item)
    ensures x in Events(store, subject, from) <==> x in store && x.subject == subject && x.cursor > from
  {
    if store != [] {
      var n := |store| - 1;
      EventsAre(store[..n], subject, from, x);
      assert store == store[..n] + [store[n]];
    }
  }

  lemma {:induction false} PendingAre(store: seq<Item>, kind: Kind, subject: string, from: nat, x: Item)
    ensures x in Pending(store, kind, subject, from)
            <==> x in store && x.kind == kind && x.subject == subject && x.cursor > from
  {
    if store != [] {
      var n := |store| - 1;
      PendingAre(store[..n], kind, subject, from, x);
      assert store == store[..n] + [store[n]];
    }
  }

  lemma IncreasingPush(items: seq<Item>, last: Item)
    requires Increasing(items) && forall x :: x in items ==> x.cursor < last.cursor
    ensures Increasing(items + [last])
  {
  }

  lemma {:induction false} EventsIncrease(store: seq<Item>, subject: string, from: nat)
    requires Increasing(store)
    ensures Increasing(Events(store, subject, from))
  {
    if store != [] {
      var n := |store| - 1;
      EventsIncrease(store[..n], subject, from);
      forall x | x in Events(store[..n], subject, from) ensures x.cursor < store[n].cursor {
        EventsAre(store[..n], subject, from, x);
      }
      IncreasingPush(Events(store[..n], subject, from), store[n]);
      assert Events(store[..n], subject, from) + [] == Events(store[..n], subject, from);
    }
  }

  lemma {:induction false} PendingIncrease(store: seq<Item>, kind: Kind, subject: string, from: nat)
    requires Increasing(store)
    ensures Increasing(Pending(store, kind, subject, from))
  {
    if store != [] {
      var n := |store| - 1;
      PendingIncrease(store[..n], kind, subject, from);
      forall x | x in Pending(store[..n], kind, subject, from) ensures x.cursor < store[n].cursor {
        PendingAre(store[..n], kind, subject, from, x);
      }
      IncreasingPush(Pending(store[..n], kind, subject, from), store[n]);
      assert Pending(store[..n], kind, subject, from) + [] == Pending(store[..n], kind, subject, from);
    }
  }

  /** Two increasing lists with the same members are the same list. */
  lemma {:induction false} IncreasingUnique(a: seq<Item>, b: seq<Item>)
    requires Increasing(a) && Increasing(b) && forall x :: x in a <==> x in b
    ensures a == b
  {
    assert b != [] ==> b[0] in b && b[0] in a;
    if a != [] {
      assert a[0] in b;
      assert a[0] == b[0];
      forall x ensures x in a[1..] <==> x in b[1..] {
        assert x in a <==> x == a[0] || x in a[1..];
        assert x in b <==> x == b[0] || x in b[1..];
      }
      IncreasingUnique(a[1..], b[1..]);
    }
  }

  // ---- one cursor per kind -------------------------------------------------------------------------

  /** The greatest cursor of the kind that is not past the global one; zero when there is none. */
  function PerKindCursor(log: seq<Entry>, kind: Kind, from: nat): (c: nat)
    ensures c <= from
    ensures forall e :: e in log && e.kind == kind && e.cursor <= from ==> e.cursor <= c
    ensures c == 0 || Entry(c, kind) in log
  {
    if log == [] then 0
    else
      var n := |log| - 1;
      var rest := PerKindCursor(log[..n], kind, from);
      assert forall e :: e in log ==> e in log[..n] || e == log[n];
      if log[n].kind == kind && log[n].cursor <= from && log[n].cursor > rest then log[n].cursor else rest
  }

  /** The log and the broker hold the same events. */
  ghost predicate Mirrors(log: seq<Entry>, store: seq<Item>) {
    |log| == |store| && forall i :: 0 <= i < |log| ==> log[i] == Entry(store[i].cursor, store[i].kind)
  }

  /** For events of its kind, the cursor of a kind selects what the global cursor selects. */
  lemma PerKindSelects(log: seq<Entry>, store: seq<Item>, kind: Kind, from: nat, x: Item)
    requires Mirrors(log, store) && x in store && x.kind == kind
    ensures x.cursor > PerKindCursor(log, kind, from) <==> x.cursor > from
  {
    var i :| 0 <= i < |store| && store[i] == x;
    assert log[i] in log;
  }

  lemma PerKindPending(log: seq<Entry>, store: seq<Item>, kind: Kind, subject: string, from: nat)
    requires Mirrors(log, store) && Increasing(store)
    ensures Pending(store, kind, subject, PerKindCursor(log, kind, from)) == Pending(store, kind, subject, from)
  {
    var c := PerKindCursor(log, kind, from);
    PendingIncrease(store, kind, subject, c);
    PendingIncrease(store, kind, subject, from);
    forall x ensures x in Pending(store, kind, subject, c) <==> x in Pending(store, kind, subject, from) {
      PendingAre(store, kind, subject, c, x);
      PendingAre(store, kind, subject, from, x);
      if x in store && x.kind == kind {
        PerKindSelects(log, store, kind, from, x);
      }
    }
    IncreasingUnique(Pending(store, kind, subject, c), Pending(store, kind, subject, from));
  }

  // ---- what one collection offers ------------------------------------------------------------------

  /** The event is among the first of its kind, as many as one poll returns. */
  predicate IsOffered(store: seq<Item>, subject: string, from: nat, x: Item) {
    x in FirstOf(Pending(store, x.kind, subject, from))
  }

  function OfferedOf(items: seq<Item>, store: seq<Item>, subject: string, from: nat): (r: seq<Item>) {
    if items == [] then []
    else
      var n := |items| - 1;
      OfferedOf(items[..n], store, subject, from) + if IsOffered(store, subject, from, items[n]) then [items[n]] else []
  }

  /** The events of a subject after a cursor, in publishing order, without those past the poll limit of their kind. */
  function Offered(store: seq<Item>, subject: string, from: nat): (r: seq<Item>) {
    OfferedOf(Events(store, subject, from), store, subject, from)
  }

  lemma {:induction false} OfferedOfAre(items: seq<Item>, store: seq<Item>, subject: string, from: nat, x: Item)
    ensures x in OfferedOf(items, store, subject, from) <==> x in items && IsOffered(store, subject, from, x)
  {
    if items != [] {
      var n := |items| - 1;
      OfferedOfAre(items[..n], store, subject, from, x);
      assert items == items[..n] + [items[n]];
    }
  }

  lemma {:induction false} OfferedOfIncrease(items: seq<Item>, store: seq<Item>, subject: string, from: nat)
    requires Increasing(items)
    ensures Increasing(OfferedOf(items, store, subject, from))
  {
    if items != [] {
      var n := |items| - 1;
      OfferedOfIncrease(items[..n], store, subject, from);
      forall x | x in OfferedOf(items[..n], store, subject, from) ensures x.cursor < items[n].cursor {
        OfferedOfAre(items[..n], store, subject, from, x);
      }
      IncreasingPush(OfferedOf(items[..n], store, subject, from), items[n]);
      assert OfferedOf(items[..n], store, subject, from) + [] == OfferedOf(items[..n], store, subject, from);
    }
  }

  lemma OfferedAre(store: seq<Item>, subject: string, from: nat, x: Item)
    ensures x in Offered(store, subject, from) <==> IsOffered(store, subject, from, x)
    ensures IsOffered(store, subject, from, x) ==> x in Events(store, subject, from)
  {
    OfferedOfAre(Events(store, subject, from), store, subject, from, x);
    EventsAre(store, subject, from, x);
    PendingAre(store, x.kind, subject, from, x);
  }

  lemma OfferedIncrease(store: seq<Item>, subject: string, from: nat)
    requires Increasing(store)
    ensures Increasing(Offered(store, subject, from))
  {
    EventsIncrease(store, subject, from);
    OfferedOfIncrease(Events(store, subject, from), store, subject, from);
  }

  ghost predicate WithinLimit(store: seq<Item>, subject: string, from: nat) {
    forall kind :: |Pending(store, kind, subject, from)| <= POLL_LIMIT
  }

  /** Nothing is missing from a collection exactly while no kind has more pending than one poll returns. */
  lemma CompleteExactly(store: seq<Item>, subject: string, from: nat)
    requires Increasing(store)
    ensures Offered(store, subject, from) == Events(store, subject, from) <==> WithinLimit(store, subject, from)
  {
    var offered, events := Offered(store, subject, from), Events(store, subject, from);
    EventsIncrease(store, subject, from);
    OfferedIncrease(store, subject, from);
    if WithinLimit(store, subject, from) {
      forall x ensures x in offered <==> x in events {
        OfferedAre(store, subject, from, x);
        EventsAre(store, subject, from, x);
        PendingAre(store, x.kind, subject, from, x);
      }
      IncreasingUnique(offered, events);
    } else {
      var kind :| |Pending(store, kind, subject, from)| > POLL_LIMIT;
      LeftOut(store, kind, subject, from);
    }
  }

  /** The first event past the limit of its kind is due, but not offered. */
  lemma LeftOut(store: seq<Item>, kind: Kind, subject: string, from: nat)
    requires Increasing(store) && |Pending(store, kind, subject, from)| > POLL_LIMIT
    ensures var x := Pending(store, kind, subject, from)[POLL_LIMIT];
            x.kind == kind && x in Events(store, subject, from) && x !in Offered(store, subject, from)
  {
    var pending := Pending(store, kind, subject, from);
    var x := pending[POLL_LIMIT];
    PendingIncrease(store, kind, subject, from);
    PendingAre(store, kind, subject, from, x);
    EventsAre(store, subject, from, x);
    OfferedAre(store, subject, from, x);
    assert forall i :: 0 <= i < POLL_LIMIT ==> pending[..POLL_LIMIT][i].cursor < x.cursor;
  }

  // ---- resuming ------------------------------------------------------------------------------------

  function UpTo(items: seq<Item>, mid: nat): (r: seq<Item>) {
    if items == [] then []
    else
      var n := |items| - 1;
      UpTo(items[..n], mid) + if items[n].cursor <= mid then [items[n]] else []
  }

  lemma {:induction false} UpToAre(items: seq<Item>, mid: nat, x: Item)
    requires Increasing(items)
    ensures x in UpTo(items, mid) <==> x in items && x.cursor <= mid
    ensures Increasing(UpTo(items, mid))
  {
    if items != [] {
      var n := |items| - 1;
      UpToAre(items[..n], mid, x);
      assert items == items[..n] + [items[n]];
      forall y | y in UpTo(items[..n], mid) ensures y.cursor < items[n].cursor {
        UpToAre(items[..n], mid, y);
      }
      IncreasingPush(UpTo(items[..n], mid), items[n]);
      assert UpTo(items[..n], mid) + [] == UpTo(items[..n], mid);
    }
  }

  /** Reading on from any cursor continues where the events up to it end: no gap and no repetition. */
  lemma ResumeContinues(store: seq<Item>, subject: string, from: nat, mid: nat)
    requires Increasing(store) && from <= mid
    ensures Events(store, subject, from) == UpTo(Events(store, subject, from), mid) + Events(store, subject, mid)
  {
    var all, later := Events(store, subject, from), Events(store, subject, mid);
    var sooner := UpTo(all, mid);
    EventsIncrease(store, subject, from);
    EventsIncrease(store, subject, mid);
    forall x ensures x in sooner <==> x in all && x.cursor <= mid {
      UpToAre(all, mid, x);
    }
    forall x ensures x in later <==> x in all && x.cursor > mid {
      EventsAre(store, subject, from, x);
      EventsAre(store, subject, mid, x);
    }
    assert Increasing(sooner + later) by {
      if all != [] {
        UpToAre(all, mid, all[0]);
      }
      forall i, j | 0 <= i < j < |sooner + later| ensures (sooner + later)[i].cursor < (sooner + later)[j].cursor {
        assert i < |sooner| ==> sooner[i] in sooner;
        assert j >= |sooner| ==> later[j - |sooner|] in later;
      }
    }
    IncreasingUnique(all, sooner + later);
  }

  /** Later publishes do not reach back: what was due up to a cursor of the store stays as it was. */
  lemma {:induction false} LaterPublishes(store: seq<Item>, more: seq<Item>, subject: string, from: nat)
    ensures Events(store + more, subject, from) == Events(store, subject, from) + Events(more, subject, from)
  {
    if more == [] {
      assert store + more == store;
    } else {
      var n := |more| - 1;
      assert (store + more)[..|store + more| - 1] == store + more[..n];
      LaterPublishes(store, more[..n], subject, from);
    }
  }

  /** The first event left out of each overfull kind comes after everything that was offered. */
  ghost predicate NothingSkipped(store: seq<Item>, subject: string, from: nat, last: nat) {
    forall kind :: |Pending(store, kind, subject, from)| > POLL_LIMIT ==>
      Pending(store, kind, subject, from)[POLL_LIMIT].cursor > last
  }

  lemma OfferedBelow(store: seq<Item>, subject: string, from: nat, last: nat, x: Item)
    requires Increasing(store) && NothingSkipped(store, subject, from, last)
    requires forall x :: x in Offered(store, subject, from) ==> x.cursor <= last
    ensures x in Offered(store, subject, from) <==> x in Events(store, subject, from) && x.cursor <= last
  {
    OfferedAre(store, subject, from, x);
    EventsAre(store, subject, from, x);
    PendingAre(store, x.kind, subject, from, x);
    PendingIncrease(store, x.kind, subject, from);
    if x in Pending(store, x.kind, subject, from) {
      PastTheLimit(Pending(store, x.kind, subject, from), x);
    }
  }

  lemma OfferedUpTo(store: seq<Item>, subject: string, from: nat, last: nat)
    requires Increasing(store) && NothingSkipped(store, subject, from, last)
    requires forall x :: x in Offered(store, subject, from) ==> x.cursor <= last
    ensures Offered(store, subject, from) == UpTo(Events(store, subject, from), last)
  {
    var offered, all := Offered(store, subject, from), Events(store, subject, from);
    EventsIncrease(store, subject, from);
    OfferedIncrease(store, subject, from);
    forall x ensures x in offered <==> x in all && x.cursor <= last {
      OfferedBelow(store, subject, from, last, x);
    }
    forall x ensures x in UpTo(all, last) <==> x in all && x.cursor <= last {
      UpToAre(all, last, x);
    }
    if all != [] {
      UpToAre(all, last, all[0]);
    }
    IncreasingUnique(offered, UpTo(all, last));
  }

  lemma PastTheLimit(pending: seq<Item>, x: Item)
    requires Increasing(pending) && x in pending
    ensures x !in FirstOf(pending) ==> |pending| > POLL_LIMIT && pending[POLL_LIMIT].cursor <= x.cursor
  {
    var i :| 0 <= i < |pending| && pending[i] == x;
    if i < POLL_LIMIT < |pending| {
      assert pending[..POLL_LIMIT][i] == x;
    }
  }

  ghost predicate LastCursor(items: seq<Item>, last: nat) {
    items != [] && items[|items| - 1].cursor == last
  }

  lemma LastIsGreatest(items: seq<Item>, last: nat, x: Item)
    requires Increasing(items) && LastCursor(items, last) && x in items
    ensures x.cursor <= last
  {
  }

  /**
   * A reader that goes on from the last event it was offered misses nothing, whatever is published meanwhile,
   * exactly when no kind had an event held back that came before that last one.
   */
  lemma ResumeExactly(store: seq<Item>, more: seq<Item>, subject: string, from: nat, last: nat)
    requires Increasing(store + more) && LastCursor(Offered(store, subject, from), last)
    ensures Offered(store, subject, from) + Events(store + more, subject, last) == Events(store + more, subject, from)
            <==> NothingSkipped(store, subject, from, last)
  {
    var offered := Offered(store, subject, from);
    assert Increasing(store) by {
      assert forall i :: 0 <= i < |store| ==> (store + more)[i] == store[i];
    }
    OfferedIncrease(store, subject, from);
    forall x | x in offered ensures x.cursor <= last {
      LastIsGreatest(offered, last, x);
    }
    if NothingSkipped(store, subject, from, last) {
      NoGap(store, more, subject, from, last);
    } else {
      var kind :| && |Pending(store, kind, subject, from)| > POLL_LIMIT
                  && Pending(store, kind, subject, from)[POLL_LIMIT].cursor <= last;
      Gap(store, more, subject, from, last, kind);
    }
  }

  lemma Gap(store: seq<Item>, more: seq<Item>, subject: string, from: nat, last: nat, kind: Kind)
    requires Increasing(store) && |Pending(store, kind, subject, from)| > POLL_LIMIT
    requires Pending(store, kind, subject, from)[POLL_LIMIT].cursor <= last
    ensures var x := Pending(store, kind, subject, from)[POLL_LIMIT];
            && x in Events(store + more, subject, from)
            && x !in Offered(store, subject, from) + Events(store + more, subject, last)
  {
    var x := Pending(store, kind, subject, from)[POLL_LIMIT];
    LeftOut(store, kind, subject, from);
    EventsAre(store, subject, from, x);
    EventsAre(store + more, subject, from, x);
    EventsAre(store + more, subject, last, x);
  }

  lemma Regrouped(a: seq<Item>, b: seq<Item>, c: seq<Item>)
    ensures a + b + c == a + (b + c)
  {
  }

  lemma NoGap(store: seq<Item>, more: seq<Item>, subject: string, from: nat, last: nat)
    requires Increasing(store + more) && Increasing(store) && NothingSkipped(store, subject, from, last)
    requires LastCursor(Offered(store, subject, from), last)
    requires forall x :: x in Offered(store, subject, from) ==> x.cursor <= last
    ensures Offered(store, subject, from) + Events(store + more, subject, last) == Events(store + more, subject, from)
  {
    var offered := Offered(store, subject, from);
    var x := offered[|offered| - 1];
    OfferedAre(store, subject, from, x);
    EventsAre(store, subject, from, x);
    OfferedUpTo(store, subject, from, last);
    ResumeContinues(store, subject, from, last);
    LaterPublishes(store, more, subject, from);
    LaterPublishes(store, more, subject, last);
    MoreIsLater(store, more, subject, from, last);
    Regrouped(UpTo(Events(store, subject, from), last), Events(store, subject, last), Events(more, subject, from));
  }

  lemma MoreIsLater(store: seq<Item>, more: seq<Item>, subject: string, from: nat, last: nat)
    requires Increasing(store + more) && from <= last && exists x :: x in store && x.cursor == last
    ensures Events(more, subject, from) == Events(more, subject, last)
  {
    assert Increasing(more) by {
      assert forall i :: 0 <= i < |more| ==> (store + more)[|store| + i] == more[i];
    }
    var x :| x in store && x.cursor == last;
    var i :| 0 <= i < |store| && store[i] == x;
    assert (store + more)[i] == x;
    assert forall j :: 0 <= j < |more| ==> (store + more)[|store| + j] == more[j] && more[j].cursor > last;
    EventsIncrease(more, subject, from);
    EventsIncrease(more, subject, last);
    forall y ensures y in Events(more, subject, from) <==> y in Events(more, subject, last) {
      EventsAre(more, subject, from, y);
      EventsAre(more, subject, last, y);
    }
    IncreasingUnique(Events(more, subject, from), Events(more, subject, last));
  }

  // ---- many rounds ---------------------------------------------------------------------------------

  function Flattened(batches: seq<seq<Item>>): (r: seq<Item>) {
    if batches == [] then [] else batches[0] + Flattened(batches[1..])
  }

  /** Where a reader goes on from: the last event of its collection, or where it was. */
  function NextFrom(got: seq<Item>, from: nat): (c: nat) {
    if got == [] then from else got[|got| - 1].cursor
  }

  /** What a reader is given that collects again after every batch published, and where it ends up. */
  function Rounds(store: seq<Item>, batches: seq<seq<Item>>, subject: string, from: nat): (r: (seq<Item>, nat))
    decreases |batches|
  {
    if batches == [] then ([], from)
    else
      var now := store + batches[0];
      var got := Offered(now, subject, from);
      var later := Rounds(now, batches[1..], subject, NextFrom(got, from));
      (got + later.0, later.1)
  }

  /** In no round does a kind have an event held back that came before the last one offered. */
  ghost predicate NoRoundSkips(store: seq<Item>, batches: seq<seq<Item>>, subject: string, from: nat)
    decreases |batches|
  {
    batches != [] ==>
      var now := store + batches[0];
      var got := Offered(now, subject, from);
      && (got != [] ==> NothingSkipped(now, subject, from, NextFrom(got, from)))
      && NoRoundSkips(now, batches[1..], subject, NextFrom(got, from))
  }

  lemma {:induction false} RoundsAfter(store: seq<Item>, batches: seq<seq<Item>>, subject: string, from: nat, x: Item)
    ensures Rounds(store, batches, subject, from).1 >= from
    ensures x in Rounds(store, batches, subject, from).0 ==> x.cursor > from
    decreases |batches|
  {
    if batches != [] {
      var now := store + batches[0];
      var got := Offered(now, subject, from);
      forall y | y in got ensures y.cursor > from {
        OfferedAre(now, subject, from, y);
        EventsAre(now, subject, from, y);
      }
      assert got != [] ==> got[|got| - 1] in got;
      RoundsAfter(now, batches[1..], subject, NextFrom(got, from), x);
    }
  }

  lemma FinalStore(store: seq<Item>, batches: seq<seq<Item>>)
    requires batches != []
    ensures store + Flattened(batches) == (store + batches[0]) + Flattened(batches[1..])
  {
  }

  lemma SameTail(a: seq<Item>, b: seq<Item>, c: seq<Item>)
    ensures a + b == a + c <==> b == c
  {
    assert b == (a + b)[|a|..] && c == (a + c)[|a|..];
  }

  lemma PrefixIncreases(store: seq<Item>, more: seq<Item>)
    requires Increasing(store + more)
    ensures Increasing(store)
  {
    assert forall i :: 0 <= i < |store| ==> (store + more)[i] == store[i];
  }

  /** An event skipped in the first round is offered in no later one. */
  lemma SkippedForGood(now: seq<Item>, rest: seq<seq<Item>>, subject: string, from: nat)
    requires Increasing(now + Flattened(rest)) && Increasing(now) && Offered(now, subject, from) != []
    requires !NothingSkipped(now, subject, from, NextFrom(Offered(now, subject, from), from))
    ensures var got := Offered(now, subject, from);
            var later, end := Rounds(now, rest, subject, NextFrom(got, from)), now + Flattened(rest);
            got + later.0 + Events(end, subject, later.1) != Events(end, subject, from)
  {
    var got := Offered(now, subject, from);
    var last := NextFrom(got, from);
    var later, end := Rounds(now, rest, subject, last), now + Flattened(rest);
    var kind :| && |Pending(now, kind, subject, from)| > POLL_LIMIT
                && Pending(now, kind, subject, from)[POLL_LIMIT].cursor <= last;
    var x := Pending(now, kind, subject, from)[POLL_LIMIT];
    Gap(now, Flattened(rest), subject, from, last, kind);
    RoundsAfter(now, rest, subject, last, x);
    EventsAre(end, subject, later.1, x);
    assert x !in got + later.0 + Events(end, subject, later.1);
  }

  /** A first round that skips nothing leaves the question to the later ones. */
  lemma FirstRoundClean(now: seq<Item>, rest: seq<seq<Item>>, subject: string, from: nat)
    requires Increasing(now + Flattened(rest)) && Increasing(now)
    requires Offered(now, subject, from) != [] ==>
               NothingSkipped(now, subject, from, NextFrom(Offered(now, subject, from), from))
    ensures var got := Offered(now, subject, from);
            var last, end := NextFrom(got, from), now + Flattened(rest);
            var later := Rounds(now, rest, subject, last);
            got + later.0 + Events(end, subject, later.1) == Events(end, subject, from)
            <==> later.0 + Events(end, subject, later.1) == Events(end, subject, last)
  {
    var got := Offered(now, subject, from);
    var last, end := NextFrom(got, from), now + Flattened(rest);
    var later := Rounds(now, rest, subject, last);
    Regrouped(got, later.0, Events(end, subject, later.1));
    SameTail(got, later.0 + Events(end, subject, later.1), Events(end, subject, last));
    if got != [] {
      ResumeExactly(now, Flattened(rest), subject, from, last);
    } else {
      assert got + Events(end, subject, from) == Events(end, subject, from);
    }
  }

  /**
   * A reader that collects again and again from its last event has, with what is still to come, every event
   * exactly once and in order, exactly when no round skips one.
   */
  lemma {:induction false} RoundsCompleteExactly(store: seq<Item>, batches: seq<seq<Item>>, subject: string, from: nat)
    requires Increasing(store + Flattened(batches))
    ensures var read, end := Rounds(store, batches, subject, from), store + Flattened(batches);
            read.0 + Events(end, subject, read.1) == Events(end, subject, from)
            <==> NoRoundSkips(store, batches, subject, from)
    decreases |batches|
  {
    if batches == [] {
      assert [] + Events(store + [], subject, from) == Events(store + [], subject, from);
    } else {
      var now, rest := store + batches[0], batches[1..];
      var got := Offered(now, subject, from);
      FinalStore(store, batches);
      PrefixIncreases(now, Flattened(rest));
      RoundsCompleteExactly(now, rest, subject, NextFrom(got, from));
      if got != [] && !NothingSkipped(now, subject, from, NextFrom(got, from)) {
        SkippedForGood(now, rest, subject, from);
      } else {
        FirstRoundClean(now, rest, subject, from);
      }
    }
  }

  // ---- a gap ---------------------------------------------------------------------------------------

  const NO_DATA: Data := Data(None, None)

  function Overfull(subject: string, n: nat): (r: seq<Item>)
    ensures |r| == n && Increasing(r)
    ensures forall i :: 0 <= i < n ==> r[i] == Item(i + 1, i, StateChanged, subject, NO_DATA)
  {
    seq(n, i requires 0 <= i < n => Item(i + 1, i, StateChanged, subject, NO_DATA))
  }

  lemma {:induction false} AllPending(subject: string, n: nat)
    ensures Pending(Overfull(subject, n), StateChanged, subject, 0) == Overfull(subject, n)
  {
    if n > 0 {
      assert Overfull(subject, n)[..n - 1] == Overfull(subject, n - 1);
      AllPending(subject, n - 1);
      assert Overfull(subject, n) == Overfull(subject, n - 1) + [Overfull(subject, n)[n - 1]];
    }
  }

  /** One state change more than a poll returns, then an error: going on from the error skips the last state change. */
  lemma OverfullKindLeavesGap(subject: string)
    ensures var store := Overfull(subject, POLL_LIMIT + 1) + [Item(POLL_LIMIT + 2, 0, ErrorEvent, subject, NO_DATA)];
            var missed := Item(POLL_LIMIT + 1, POLL_LIMIT, StateChanged, subject, NO_DATA);
            && missed in Events(store, subject, 0)
            && Item(POLL_LIMIT + 2, 0, ErrorEvent, subject, NO_DATA) in Offered(store, subject, 0)
            && missed !in Offered(store, subject, 0) + Events(store, subject, POLL_LIMIT + 2)
  {
    var full, error := Overfull(subject, POLL_LIMIT + 1), Item(POLL_LIMIT + 2, 0, ErrorEvent, subject, NO_DATA);
    var store := full + [error];
    assert store[..|store| - 1] == full;
    AllPending(subject, POLL_LIMIT + 1);
    var pending := Pending(store, StateChanged, subject, 0);
    assert pending == full + [] == full;
    Gap(store, [], subject, 0, POLL_LIMIT + 2, StateChanged);
    assert store + [] == store;
    NoErrors(subject, POLL_LIMIT + 1);
    assert Pending(store, ErrorEvent, subject, 0) == [error];
    OfferedAre(store, subject, 0, error);
  }

  lemma NoErrors(subject: string, n: nat)
    ensures Pending(Overfull(subject, n), ErrorEvent, subject, 0) == []
  {
    var pending := Pending(Overfull(subject, n), ErrorEvent, subject, 0);
    if pending != [] {
      PendingAre(Overfull(subject, n), ErrorEvent, subject, 0, pending[0]);
    }
  }

  // ---- merging -------------------------------------------------------------------------------------

  predicate NotAfter(a: Item, b: Item) {
    a.cursor < b.cursor || (a.cursor == b.cursor && a.id <= b.id)
  }

  function Insert(x: Item, items: seq<Item>): (r: seq<Item>) {
    if items == [] then [x]
    else if NotAfter(items[|items| - 1], x) then items + [x]
    else Insert(x, items[..|items| - 1]) + [items[|items| - 1]]
  }

  /** The stable sort by cursor, then identifier. */
  function SortItems(items: seq<Item>): (r: seq<Item>) {
    if items == [] then [] else Insert(items[|items| - 1], SortItems(items[..|items| - 1]))
  }

  predicate Apart(items: seq<Item>) {
    forall i, j :: 0 <= i < j < |items| ==> items[i].cursor != items[j].cursor
  }

  lemma {:induction false} InsertInto(x: Item, items: seq<Item>)
    requires Increasing(items) && forall y :: y in items ==> y.cursor != x.cursor
    ensures Increasing(Insert(x, items))
    ensures forall y :: y in Insert(x, items) <==> y == x || y in items
  {
    if items != [] && !NotAfter(items[|items| - 1], x) {
      var n := |items| - 1;
      assert items == items[..n] + [items[n]];
      InsertInto(x, items[..n]);
      IncreasingPush(Insert(x, items[..n]), items[n]);
    } else if items != [] {
      assert items[|items| - 1] in items;
      IncreasingPush(items, x);
    }
  }

  lemma {:induction false} SortApart(items: seq<Item>)
    requires Apart(items)
    ensures Increasing(SortItems(items))
    ensures forall y :: y in SortItems(items) <==> y in items
  {
    if items != [] {
      var n := |items| - 1;
      SortApart(items[..n]);
      assert items == items[..n] + [items[n]];
      InsertInto(items[n], SortItems(items[..n]));
    }
  }
}
