// At-most-once execution over runs of the store.

module BoundedExecution {
  import opened CommandLedger

  // Any number of lanes record commands, saves fail or succeed, and the process may
  // crash between any two steps. A command runs only after "executing" was recorded for
  // an id the ledger did not hold, and only when that record reached the file.

  datatype Store = Store(mem: Ledger, file: Ledger)

  datatype Event =
    | Run(id: Id, entry: Entry)
    | Record(id: Id, entry: Entry, saved: bool)
    | AckFlag(id: Id, pending: bool, resolution: Resolution, saved: bool)
    | SaveAll
    | Crash

  ghost predicate Ok(s: Store) {
    Valid(s.mem) && Valid(s.file)
  }

  function Save(mem: Ledger, file: Ledger, saved: bool): Store {
    Store(mem, if saved then mem else file)
  }

  function Apply(s: Store, ev: Event): Store {
    match ev
    case Run(id, e) => Save(Mark(s.mem, id, e), s.file, true)
    case Record(id, e, saved) => Save(Mark(s.mem, id, e), s.file, saved)
    case AckFlag(id, pending, resolution, saved) =>
      Save(SetAck(s.mem, id, pending, resolution), s.file, saved)
    case SaveAll => Save(s.mem, s.file, true)
    case Crash => Store(Youngest(s.file), s.file)
  }

  predicate Enabled(s: Store, ev: Event) {
    ev.Run? ==> ev.id !in s.mem.entries && ev.entry.status == Executing
  }

  ghost predicate IsRun(states: seq<Store>, evs: seq<Event>) {
    && |states| == |evs| + 1
    && Ok(states[0])
    && forall i :: 0 <= i < |evs| ==> Enabled(states[i], evs[i]) && states[i + 1] == Apply(states[i], evs[i])
  }

  predicate Executes(ev: Event, x: Id) {
    ev.Run? && ev.id == x
  }

  // The ids other than `x` recorded by events lo, lo + 1, ..., hi - 1.
  function OthersRecorded(evs: seq<Event>, lo: nat, hi: nat, x: Id): set<Id>
    requires lo <= hi <= |evs|
    decreases hi - lo
  {
    if lo == hi then {}
    else OthersRecorded(evs, lo, hi - 1, x) + RecordedBy(evs[hi - 1], x)
  }

  function RecordedBy(ev: Event, x: Id): set<Id> {
    if (ev.Run? || ev.Record?) && ev.id != x then {ev.id} else {}
  }

  // `x` is retained with only ids of `seen` behind it, or MAX_PROCESSED_COMMANDS
  // ids of `seen` have pushed it out.
  ghost predicate Guarded(l: Ledger, x: Id, seen: set<Id>) {
    if x in l.entries then OnlyBehind(l.order, x, seen)
    else |seen| >= MAX_PROCESSED_COMMANDS
  }

  ghost predicate OnlyBehind(order: seq<Id>, x: Id, seen: set<Id>) {
    forall i, j :: 0 <= i < j < |order| && order[i] == x ==> order[j] in seen
  }

  lemma ApplyIsOk(s: Store, ev: Event)
    requires Ok(s)
    ensures Ok(Apply(s, ev))
  {
    match ev
    case Run(id, e) => MarkIsValid(s.mem, id, e);
    case Record(id, e, _) => MarkIsValid(s.mem, id, e);
    case AckFlag(id, pending, resolution, _) => SetAckIsValid(s.mem, id, pending, resolution);
    case SaveAll =>
    case Crash => LoadOfSaved(s.file);
  }

  lemma SubsetCardinality(a: set<Id>, b: set<Id>)
    requires a <= b
    ensures |a| <= |b|
  {
    assert b == a + (b - a);
  }

  // A full ledger whose oldest key is `x` loses it to a new key: the
  // MAX_PROCESSED_COMMANDS keys that remain were all seen.
  lemma EvictedAfterBound(l: Ledger, x: Id, seen: set<Id>, id: Id, e: Entry)
    requires Valid(l) && x in l.entries && Guarded(l, x, seen)
    requires x !in Mark(l, id, e).entries
    ensures |seen + {id}| >= MAX_PROCESSED_COMMANDS
  {
    MarkEvicts(l, id, e, x);
    MarkIsValid(l, id, e);
    var kept := Mark(l, id, e).order;
    assert kept == (l.order + [id])[1..];
    NoDupCardinality(kept);
    assert forall y :: y in kept ==> y in seen + {id};
    SubsetCardinality((set y | y in kept), seen + {id});
  }

  lemma MarkKeepsGuarded(l: Ledger, x: Id, seen: set<Id>, id: Id, e: Entry)
    requires Valid(l) && Guarded(l, x, seen)
    ensures Guarded(Mark(l, id, e), x, if id == x then seen else seen + {id})
  {
    MarkIsValid(l, id, e);
    if x !in l.entries {
      SubsetCardinality(seen, seen + {id});
      if id == x {
        FreshMarkAppends(l, id, e);
        NewestHasNothingBehind(l, x, e, seen);
      }
    } else if x !in Mark(l, id, e).entries {
      EvictedAfterBound(l, x, seen, id, e);
    } else if id !in l.entries {
      FreshMarkAppends(l, id, e);
      var t := l.order + [id];
      assert OnlyBehind(t, x, seen + {id});
      SuffixKeepsOnlyBehind(t, |t| - |Mark(l, id, e).order|, x, seen + {id});
    }
  }

  lemma FreshMarkAppends(l: Ledger, id: Id, e: Entry)
    requires Valid(l) && id !in l.entries
    ensures Mark(l, id, e).order == LastN(l.order + [id], MAX_PROCESSED_COMMANDS)
  {
  }

  lemma NewestHasNothingBehind(l: Ledger, x: Id, e: Entry, seen: set<Id>)
    requires Valid(l) && x !in l.entries
    ensures OnlyBehind(Mark(l, x, e).order, x, seen)
  {
  }

  lemma SuffixKeepsOnlyBehind(order: seq<Id>, cut: nat, x: Id, seen: set<Id>)
    requires cut <= |order| && OnlyBehind(order, x, seen)
    ensures OnlyBehind(order[cut..], x, seen)
  {
  }

  lemma ApplyKeepsGuarded(s: Store, ev: Event, x: Id, seen: set<Id>)
    requires Ok(s) && Enabled(s, ev)
    requires Guarded(s.mem, x, seen) && Guarded(s.file, x, seen)
    ensures var s' := Apply(s, ev);
            Guarded(s'.mem, x, seen + RecordedBy(ev, x)) && Guarded(s'.file, x, seen + RecordedBy(ev, x))
  {
    SubsetCardinality(seen, seen + RecordedBy(ev, x));
    match ev
    case Run(id, e) => MarkKeepsGuarded(s.mem, x, seen, id, e);
    case Record(id, e, _) => MarkKeepsGuarded(s.mem, x, seen, id, e);
    case AckFlag(id, pending, resolution, _) => SetAckIsValid(s.mem, id, pending, resolution);
    case SaveAll =>
    case Crash => LoadOfSaved(s.file);
  }

  lemma {:induction false} RunStaysOk(states: seq<Store>, evs: seq<Event>, k: nat)
    requires IsRun(states, evs) && k <= |evs|
    ensures Ok(states[k])
  {
    if k > 0 {
      RunStaysOk(states, evs, k - 1);
      ApplyIsOk(states[k - 1], evs[k - 1]);
    }
  }

  lemma {:induction false} GuardedAlongRun(states: seq<Store>, evs: seq<Event>, i: nat, k: nat, x: Id)
    requires IsRun(states, evs) && i < k <= |evs| && Executes(evs[i], x)
    ensures Guarded(states[k].mem, x, OthersRecorded(evs, i + 1, k, x))
    ensures Guarded(states[k].file, x, OthersRecorded(evs, i + 1, k, x))
    decreases k
  {
    RunStaysOk(states, evs, k - 1);
    if k == i + 1 {
      var before := states[i].mem;
      MarkIsValid(before, x, evs[i].entry);
      NewestHasNothingBehind(before, x, evs[i].entry, {});
    } else {
      GuardedAlongRun(states, evs, i, k - 1, x);
      ApplyKeepsGuarded(states[k - 1], evs[k - 1], x, OthersRecorded(evs, i + 1, k - 1, x));
    }
  }

  /** Two executions of one command id are always separated by the recording of
      at least MAX_PROCESSED_COMMANDS distinct other ids, over every run with
      crashes and failing saves. */
  lemma {:induction false} ExecutionsAreFarApart(states: seq<Store>, evs: seq<Event>, i: nat, j: nat, x: Id)
    requires IsRun(states, evs) && i < j < |evs|
    requires Executes(evs[i], x) && Executes(evs[j], x)
    ensures |OthersRecorded(evs, i + 1, j, x)| >= MAX_PROCESSED_COMMANDS
  {
    assert Enabled(states[j], evs[j]);
    GuardedAlongRun(states, evs, i, j, x);
  }

  function RecordAll(l: Ledger, ids: seq<Id>, e: Entry): Ledger {
    if ids == [] then l else Mark(RecordAll(l, ids[..|ids| - 1], e), ids[|ids| - 1], e)
  }

  // Recording new ids appends them, and cuts the ledger down to its youngest.
  lemma {:induction false} NewRecordsAppend(l: Ledger, ids: seq<Id>, e: Entry)
    requires Valid(l) && NoDup(ids) && forall y :: y in ids ==> y !in l.entries
    ensures Valid(RecordAll(l, ids, e)) && RecordAll(l, ids, e).order == LastN(l.order + ids, MAX_PROCESSED_COMMANDS)
  {
    if ids == [] {
      assert l.order + ids == l.order;
    } else {
      var n := |ids| - 1;
      assert ids == ids[..n] + [ids[n]];
      NewRecordsAppend(l, ids[..n], e);
      NewestIsAppended(RecordAll(l, ids[..n], e), l.order + ids[..n], ids[n], e);
      assert l.order + ids == l.order + ids[..n] + [ids[n]];
    }
  }

  lemma NewestIsAppended(l: Ledger, whole: seq<Id>, last: Id, e: Entry)
    requires Valid(l) && l.order == LastN(whole, MAX_PROCESSED_COMMANDS) && last !in whole
    ensures Valid(Mark(l, last, e)) && Mark(l, last, e).order == LastN(whole + [last], MAX_PROCESSED_COMMANDS)
  {
    assert last !in l.order;
    MarkIsValid(l, last, e);
    FreshMarkAppends(l, last, e);
    LastNAppend(whole, last, MAX_PROCESSED_COMMANDS);
  }

  /** The bound is tight, in both directions: after a command was recorded as
      new, recording `ids`, all new and distinct, loses it if and only if there
      are at least MAX_PROCESSED_COMMANDS of them. */
  lemma {:induction false} BoundIsTight(l: Ledger, x: Id, ids: seq<Id>, e: Entry)
    requires Valid(l) && x !in l.entries
    requires NoDup(ids) && x !in ids && forall y :: y in ids ==> y !in l.entries
    ensures var after := RecordAll(Mark(l, x, e), ids, e);
            Valid(after) && (x !in after.entries <==> |ids| >= MAX_PROCESSED_COMMANDS)
  {
    MarkIsValid(l, x, e);
    FreshMarkAppends(l, x, e);
    var marked := Mark(l, x, e);
    assert marked.order[|marked.order| - 1] == x;
    NewRecordsAppend(marked, ids, e);
    LastIsLostExactlyWhen(marked.order, x, ids);
  }

  lemma LastIsLostExactlyWhen(order: seq<Id>, x: Id, ids: seq<Id>)
    requires order != [] && order[|order| - 1] == x && x !in ids
    ensures x !in LastN(order + ids, MAX_PROCESSED_COMMANDS) <==> |ids| >= MAX_PROCESSED_COMMANDS
  {
    var whole := order + ids;
    var kept := LastN(whole, MAX_PROCESSED_COMMANDS);
    if |ids| >= MAX_PROCESSED_COMMANDS {
      assert kept == ids[|ids| - MAX_PROCESSED_COMMANDS..];
    } else {
      assert kept[|kept| - |ids| - 1] == x;
    }
  }
}
