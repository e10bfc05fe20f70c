/**
 * The unit of work of the backend services (`backend/app/services/base.py`):
 * objects to insert and objects to update are collected during a request and
 * written to the database session in one flush. The SQLAlchemy session is
 * modelled by the log of the calls made on it.
 */
module Uow {
  import opened Seqs

  /** A call on the database session. */
  datatype DbCall<T(==)> = AddAll(objs: seq<T>) | Merge(obj: T) | Commit

  /** The session: every call made on it, in order. */
  class DbSession<T(==)> {
    var log: seq<DbCall<T>>

    constructor ()
      ensures log == []
    {
      log := [];
    }

    method Call(c: DbCall<T>)
      modifies this
      ensures log == old(log) + [c]
    {
      log := log + [c];
    }
  }

  /** One merge per dirty object, in order. */
  function MergeCalls<T(==)>(dirty: seq<T>): (r: seq<DbCall<T>>)
    ensures |r| == |dirty| && forall i :: 0 <= i < |dirty| ==> r[i] == Merge(dirty[i])
  {
    seq(|dirty|, i requires 0 <= i < |dirty| => Merge(dirty[i]))
  }

  lemma MergeCallsSnoc<T>(dirty: seq<T>, i: nat)
    requires i < |dirty|
    ensures MergeCalls(dirty[..i + 1]) == MergeCalls(dirty[..i]) + [Merge(dirty[i])]
  {
  }

  /**
   * The calls `flush` makes: the new objects in one `add_all` when there are
   * any, a `merge` per dirty object, and a `commit` when either list was non-empty.
   */
  function FlushCalls<T(==)>(pending: seq<T>, dirty: seq<T>): (r: seq<DbCall<T>>)
    ensures Commit in r <==> pending != [] || dirty != []
    ensures pending == [] && dirty == [] ==> r == []
    ensures r != [] ==> r[|r| - 1] == Commit
    ensures forall c :: c in r && c.AddAll? ==> c.objs == pending && pending != []
    ensures forall x :: x in dirty ==> Merge(x) in r
  {
    var added := if pending != [] then [AddAll(pending)] else [];
    var merged := MergeCalls(dirty);
    var r := added + merged + (if pending != [] || dirty != [] then [Commit] else []);
    assert forall x :: x in dirty ==> Merge(x) in merged;
    r
  }

  class UnitOfWork<T(==)> {
    const db: DbSession<T>
    /** `_new`: objects to insert. */
    var pending: seq<T>
    /** `_dirty`: objects to update. */
    var dirty: seq<T>

    constructor (db: DbSession<T>)
      ensures this.db == db && pending == [] && dirty == []
    {
      this.db := db;
      pending := [];
      dirty := [];
    }

    /** `add(obj)`: queued for insertion; nothing else changes. */
    method Add(obj: T)
      modifies this
      ensures pending == old(pending) + [obj] && dirty == old(dirty)
    {
      pending := pending + [obj];
    }

    /** `update(obj)`: queued for a merge; nothing else changes. */
    method Update(obj: T)
      modifies this
      ensures dirty == old(dirty) + [obj] && pending == old(pending)
    {
      dirty := dirty + [obj];
    }

    /** `flush()`: the queued work goes to the session and both queues are emptied. */
    method Flush()
      modifies this, db
      ensures db.log == old(db.log) + FlushCalls(old(pending), old(dirty))
      ensures pending == [] && dirty == []
    {
      var objs, ds := pending, dirty;
      ghost var log0 := db.log;
      ghost var added: seq<DbCall<T>> := if objs != [] then [AddAll(objs)] else [];
      if objs != [] {
        db.Call(AddAll(objs));
      }
      ghost var start := db.log;
      for i := 0 to |ds|
        invariant db.log == start + MergeCalls(ds[..i])
      {
        MergeCallsSnoc(ds, i);
        ConcatAssoc(start, MergeCalls(ds[..i]), [Merge(ds[i])]);
        db.Call(Merge(ds[i]));
      }
      assert ds[..|ds|] == ds;
      ghost var committed: seq<DbCall<T>> := if objs != [] || ds != [] then [Commit] else [];
      if objs != [] || ds != [] {
        db.Call(Commit);
      }
      assert db.log == log0 + added + MergeCalls(ds) + committed;
      ConcatAssoc(log0, added, MergeCalls(ds));
      ConcatAssoc(log0, added + MergeCalls(ds), committed);
      pending := [];
      dirty := [];
    }

    /** One step of a request handler. */
    method Perform(step: Step<T>)
      modifies this, db
      ensures State(db.log, pending, dirty) == Apply(State(old(db.log), old(pending), old(dirty)), step)
    {
      match step
      case AddStep(x) => Add(x);
      case UpdateStep(x) => Update(x);
      case FlushStep => Flush();
    }
  }

  // --------------------------------------------------------------- requests

  /** What a request handler does with its unit of work. */
  datatype Step<T(==)> = AddStep(obj: T) | UpdateStep(obj: T) | FlushStep

  /** The session log and the two queues. */
  datatype State<T(==)> = State(calls: seq<DbCall<T>>, pending: seq<T>, dirty: seq<T>)

  function Apply<T(==)>(s: State<T>, step: Step<T>): State<T> {
    match step
    case AddStep(x) => s.(pending := s.pending + [x])
    case UpdateStep(x) => s.(dirty := s.dirty + [x])
    case FlushStep => State(s.calls + FlushCalls(s.pending, s.dirty), [], [])
  }

  /** The state after the steps, starting from a fresh unit of work on a session with `log`. */
  function Replay<T(==)>(log: seq<DbCall<T>>, steps: seq<Step<T>>): (r: State<T>)
    ensures steps != [] && steps[|steps| - 1] == FlushStep ==> r.pending == [] && r.dirty == []
    decreases |steps|
  {
    if steps == [] then State(log, [], []) else Apply(Replay(log, steps[..|steps| - 1]), steps[|steps| - 1])
  }

  /** The steps `get_uow` takes: the handler's, then a flush unless the handler raised. */
  function Request<T(==)>(steps: seq<Step<T>>, raised: bool): seq<Step<T>> {
    if raised then steps else steps + [FlushStep]
  }

  /**
   * `get_uow(db)`: a fresh unit of work is handed to the handler, which runs its
   * steps; when the handler returns, the unit of work is flushed, and when it
   * raises, the queued work is dropped.
   */
  method GetUow<T(==)>(db: DbSession<T>, steps: seq<Step<T>>, raised: bool) returns (uow: UnitOfWork<T>)
    modifies db
    ensures fresh(uow) && uow.db == db
    ensures State(db.log, uow.pending, uow.dirty) == Replay(old(db.log), Request(steps, raised))
  {
    uow := new UnitOfWork(db);
    ghost var start := db.log;
    for k := 0 to |steps|
      invariant uow.db == db
      invariant State(db.log, uow.pending, uow.dirty) == Replay(start, steps[..k])
    {
      assert steps[..k + 1][..k] == steps[..k];
      uow.Perform(steps[k]);
    }
    assert steps[..|steps|] == steps;
    if !raised {
      var all := steps + [FlushStep];
      assert all[..|steps|] == steps;
      uow.Flush();
    }
  }

  // ------------------------------------------------------------- properties

  predicate Inserted<T(==)>(calls: seq<DbCall<T>>, x: T) {
    exists c :: c in calls && c.AddAll? && x in c.objs
  }

  function AddedObjs<T(==)>(steps: seq<Step<T>>): (r: seq<T>)
    decreases |steps|
  {
    if steps == [] then []
    else AddedObjs(steps[..|steps| - 1]) + (if steps[|steps| - 1].AddStep? then [steps[|steps| - 1].obj] else [])
  }

  function UpdatedObjs<T(==)>(steps: seq<Step<T>>): (r: seq<T>)
    decreases |steps|
  {
    if steps == [] then []
    else UpdatedObjs(steps[..|steps| - 1]) + (if steps[|steps| - 1].UpdateStep? then [steps[|steps| - 1].obj] else [])
  }

  /** Every object added so far is either still queued or already passed to `add_all`. */
  lemma {:induction false} AddedTracked<T>(log: seq<DbCall<T>>, steps: seq<Step<T>>)
    ensures forall x :: x in AddedObjs(steps) ==> x in Replay(log, steps).pending || Inserted(Replay(log, steps).calls, x)
    decreases |steps|
  {
    if steps != [] {
      var init := steps[..|steps| - 1];
      var s := Replay(log, init);
      AddedTracked(log, init);
      match steps[|steps| - 1]
      case AddStep(y) =>
      case UpdateStep(y) =>
      case FlushStep =>
        var r := Replay(log, steps);
        assert r.calls == s.calls + FlushCalls(s.pending, s.dirty);
        forall x | x in AddedObjs(steps) ensures Inserted(r.calls, x) {
          if x in s.pending {
            assert AddAll(s.pending) in FlushCalls(s.pending, s.dirty);
            assert AddAll(s.pending) in r.calls;
          } else {
            var c :| c in s.calls && c.AddAll? && x in c.objs;
            assert c in r.calls;
          }
        }
    }
  }

  /** Every object updated so far is either still queued or already merged. */
  lemma {:induction false} UpdatedTracked<T>(log: seq<DbCall<T>>, steps: seq<Step<T>>)
    ensures forall x :: x in UpdatedObjs(steps) ==> x in Replay(log, steps).dirty || Merge(x) in Replay(log, steps).calls
    decreases |steps|
  {
    if steps != [] {
      var init := steps[..|steps| - 1];
      var s := Replay(log, init);
      UpdatedTracked(log, init);
      match steps[|steps| - 1]
      case AddStep(y) =>
      case UpdateStep(y) =>
      case FlushStep =>
        var r := Replay(log, steps);
        assert r.calls == s.calls + FlushCalls(s.pending, s.dirty);
    }
  }

  /**
   * A request that returns normally leaves nothing queued: every object it
   * added was passed to `add_all` and every object it updated was merged.
   */
  lemma RequestWritesAll<T>(log: seq<DbCall<T>>, steps: seq<Step<T>>)
    ensures var s := Replay(log, Request(steps, false));
      && s.pending == [] && s.dirty == []
      && (forall x :: x in AddedObjs(steps) ==> Inserted(s.calls, x))
      && (forall x :: x in UpdatedObjs(steps) ==> Merge(x) in s.calls)
  {
    var all := steps + [FlushStep];
    assert all[..|all| - 1] == steps;
    assert AddedObjs(all) == AddedObjs(steps) && UpdatedObjs(all) == UpdatedObjs(steps);
    AddedTracked(log, all);
    UpdatedTracked(log, all);
  }

  /**
   * A request that neither adds nor updates anything makes no database call,
   * not even a commit, whether it returns or raises.
   */
  lemma {:induction false} NothingQueuedNoCalls<T>(log: seq<DbCall<T>>, steps: seq<Step<T>>, raised: bool)
    requires forall k :: 0 <= k < |steps| ==> steps[k] == FlushStep
    ensures Replay(log, Request(steps, raised)).calls == log
  {
    var r := Request(steps, raised);
    assert forall k :: 0 <= k < |r| ==> r[k] == FlushStep;
    QuietSteps(log, r);
  }

  lemma {:induction false} QuietSteps<T>(log: seq<DbCall<T>>, steps: seq<Step<T>>)
    requires forall k :: 0 <= k < |steps| ==> steps[k] == FlushStep
    ensures Replay(log, steps) == State(log, [], [])
    decreases |steps|
  {
    if steps != [] {
      QuietSteps(log, steps[..|steps| - 1]);
    }
  }

  /**
   * A handler that raises before any flush of its own sends nothing to the
   * session: everything it added or updated is left in the abandoned queues.
   */
  lemma {:induction false} RaisedSendsNothing<T>(log: seq<DbCall<T>>, steps: seq<Step<T>>)
    requires forall k :: 0 <= k < |steps| ==> steps[k] != FlushStep
    ensures Replay(log, Request(steps, true)) == State(log, AddedObjs(steps), UpdatedObjs(steps))
    decreases |steps|
  {
    if steps != [] {
      RaisedSendsNothing(log, steps[..|steps| - 1]);
    }
  }
}
