/**
 * The script queue fix-up of `SystemServiceProvider::onKernelResponse`.
 *
 * The `view.scripts` collection is a class with two fields: the registered
 * scripts, in iteration order, and the queue of script names. `queue` and
 * `dequeue` are taken to be "append if absent" and "remove if present".
 * Dependency resolution is a parameter: the set of names a script's
 * dependencies resolve to, as seen before the fix-up changes anything.
 */
module ScriptQueue {
  import opened Sequences

  /** The name of the AMD loader script, and of the flag that marks a
      script as an AMD module. */
  const REQUIRE_JS := "requirejs"

  /** A registered script: its name, its `requirejs` flag and its declared
      dependencies. */
  datatype Script = Script(name: string, requirejs: bool, dependencies: seq<string>)

  /** The collection is keyed by name. */
  predicate UniqueNames(s: seq<Script>) {
    forall i, j :: 0 <= i < j < |s| ==> s[i].name != s[j].name
  }

  // ---------------------------------------------------------------------
  // The queue

  /** `queue(name)`: appends the name unless it is already queued. */
  function Enqueued(q: seq<string>, name: string): seq<string> {
    if name in q then q else q + [name]
  }

  /** Queueing is idempotent, only ever appends, and adds exactly `name`. */
  lemma EnqueuedFacts(q: seq<string>, name: string)
    ensures q <= Enqueued(q, name)
    ensures name in q ==> Enqueued(q, name) == q
    ensures forall x :: x in Enqueued(q, name) <==> x in q || x == name
    ensures NoDuplicates(q) ==> NoDuplicates(Enqueued(q, name))
  {
  }

  /** The names of `q` that are not in `drop`, in order. */
  function Without(q: seq<string>, drop: seq<string>): seq<string> {
    if q == [] then []
    else
      var r := Without(q[..|q| - 1], drop);
      if q[|q| - 1] in drop then r else r + [q[|q| - 1]]
  }

  /** `dequeue(name)`: removes the name if it is queued. */
  function Dequeued(q: seq<string>, name: string): seq<string> {
    Without(q, [name])
  }

  /** Filtering keeps exactly the names not dropped, and no name twice. */
  lemma {:induction false} WithoutFacts(q: seq<string>, drop: seq<string>)
    ensures forall x :: x in Without(q, drop) <==> x in q && x !in drop
    ensures NoDuplicates(q) ==> NoDuplicates(Without(q, drop))
  {
    if q != [] {
      var init, last := q[..|q| - 1], q[|q| - 1];
      WithoutFacts(init, drop);
      assert q == init + [last];
      assert NoDuplicates(q) ==> last !in init;
    }
  }

  /** Filtering distributes over concatenation. */
  lemma {:induction false} WithoutAppend(a: seq<string>, b: seq<string>, drop: seq<string>)
    ensures Without(a + b, drop) == Without(a, drop) + Without(b, drop)
  {
    if b == [] {
      assert a + b == a;
    } else {
      var init := b[..|b| - 1];
      WithoutAppend(a, init, drop);
      assert (a + b)[..|a + b| - 1] == a + init;
      assert (a + b)[|a + b| - 1] == b[|b| - 1];
    }
  }

  /** Filtering by nothing keeps everything. */
  lemma {:induction false} WithoutNothing(q: seq<string>)
    ensures Without(q, []) == q
  {
    if q != [] {
      WithoutNothing(q[..|q| - 1]);
      assert q == q[..|q| - 1] + [q[|q| - 1]];
    }
  }

  /** Filtering twice is filtering once by both lists. */
  lemma {:induction false} WithoutWithout(q: seq<string>, d1: seq<string>, d2: seq<string>)
    ensures Without(Without(q, d1), d2) == Without(q, d1 + d2)
  {
    if q != [] {
      var init, last := q[..|q| - 1], q[|q| - 1];
      WithoutWithout(init, d1, d2);
      if last !in d1 {
        var w := Without(init, d1);
        assert (w + [last])[..|w + [last]| - 1] == w;
      }
    }
  }

  /** The loop of lines 147-150, on the queue: every name queued in turn. */
  function QueueAll(q: seq<string>, names: seq<string>): seq<string>
    decreases names
  {
    if names == [] then q
    else QueueAll(Enqueued(q, names[0]), names[1..])
  }

  /** Queueing several names never moves a queued name, and adds exactly
      the names given. */
  lemma {:induction false} QueueAllFacts(q: seq<string>, names: seq<string>)
    ensures q <= QueueAll(q, names)
    ensures forall x :: x in QueueAll(q, names) <==> x in q || x in names
    ensures NoDuplicates(q) ==> NoDuplicates(QueueAll(q, names))
    decreases names
  {
    if names != [] {
      EnqueuedFacts(q, names[0]);
      QueueAllFacts(Enqueued(q, names[0]), names[1..]);
      assert names == [names[0]] + names[1..];
    }
  }

  /** One turn of the loop of lines 147-150, on the queue. */
  lemma QueueAllNext(q: seq<string>, names: seq<string>, k: nat)
    requires k < |names|
    ensures QueueAll(Enqueued(q, names[k]), names[k + 1..]) == QueueAll(q, names[k..])
    ensures NoDuplicates(q) ==> NoDuplicates(Enqueued(q, names[k]))
  {
  }

  /** The loop of lines 152-155: every name dequeued and queued again. */
  function RequeueAll(q: seq<string>, names: seq<string>): seq<string>
    decreases names
  {
    if names == [] then q
    else RequeueAll(Enqueued(Dequeued(q, names[0]), names[0]), names[1..])
  }

  /** One turn of the loop of lines 152-155. */
  lemma RequeueAllNext(q: seq<string>, names: seq<string>, k: nat)
    requires k < |names|
    ensures RequeueAll(Enqueued(Dequeued(q, names[k]), names[k]), names[k + 1..]) == RequeueAll(q, names[k..])
    ensures NoDuplicates(q) ==> NoDuplicates(Enqueued(Dequeued(q, names[k]), names[k]))
  {
    assert names[k..][1..] == names[k + 1..];
    WithoutFacts(q, [names[k]]);
    EnqueuedFacts(Dequeued(q, names[k]), names[k]);
  }

  /** Dequeueing and queueing a name moves it to the tail. */
  lemma RequeueOne(q: seq<string>, n: string)
    ensures Enqueued(Dequeued(q, n), n) == Without(q, [n]) + [n]
  {
  }

  /** After `n` has moved to the tail, moving the rest leaves it just
      ahead of them. */
  lemma WithoutAfterMove(q: seq<string>, n: string, rest: seq<string>)
    requires n !in rest
    ensures Without(Without(q, [n]) + [n], rest) == Without(q, [n] + rest) + [n]
  {
    WithoutAppend(Without(q, [n]), [n], rest);
    WithoutWithout(q, [n], rest);
    assert [n][..0] == [];
  }

  /** Requeueing distinct names removes them from where they were and
      appends them, in order, at the tail. */
  lemma {:induction false} RequeueAllMovesToTail(q: seq<string>, names: seq<string>)
    requires NoDuplicates(names)
    ensures RequeueAll(q, names) == Without(q, names) + names
    decreases names
  {
    if names == [] {
      WithoutNothing(q);
    } else {
      var n, rest := names[0], names[1..];
      assert names == [n] + rest;
      assert n !in rest;
      RequeueOne(q, n);
      RequeueAllMovesToTail(Without(q, [n]) + [n], rest);
      WithoutAfterMove(q, n, rest);
    }
  }

  // ---------------------------------------------------------------------
  // The partition of lines 135-141

  /** The positions of the scripts whose `requirejs` flag is set, in
      iteration order: the `$require` list. */
  function Flagged(s: seq<Script>): (r: seq<nat>)
    ensures forall k :: 0 <= k < |r| ==> r[k] < |s| && s[r[k]].requirejs
    ensures forall j :: 0 <= j < |s| && s[j].requirejs ==> j in r
    ensures forall k, l :: 0 <= k < l < |r| ==> r[k] < r[l]
  {
    if s == [] then []
    else
      var r := Flagged(s[..|s| - 1]);
      if s[|s| - 1].requirejs then r + [|s| - 1] else r
  }

  /** The names of the scripts at positions `at`. */
  function NamesAt(s: seq<Script>, at: seq<nat>): (r: seq<string>)
    requires forall k :: 0 <= k < |at| ==> at[k] < |s|
    ensures |r| == |at|
  {
    seq(|at|, k requires 0 <= k < |at| => s[at[k]].name)
  }

  /** The names of the flagged scripts, in iteration order. */
  function RequireNames(s: seq<Script>): seq<string> {
    NamesAt(s, Flagged(s))
  }

  /** The flagged scripts, by name. */
  lemma RequireNamesIff(s: seq<Script>, x: string)
    ensures x in RequireNames(s) <==> exists j :: 0 <= j < |s| && s[j].requirejs && s[j].name == x
  {
    var r := Flagged(s);
    if j :| 0 <= j < |s| && s[j].requirejs && s[j].name == x {
      var k :| 0 <= k < |r| && r[k] == j;
      assert RequireNames(s)[k] == x;
    }
  }

  /** The names of the unflagged scripts whose resolved dependencies
      contain `requirejs`, in iteration order: the `$requeue` list. */
  function Dependents(s: seq<Script>, resolved: Script -> set<string>): seq<string> {
    if s == [] then []
    else
      var last := s[|s| - 1];
      var r := Dependents(s[..|s| - 1], resolved);
      if !last.requirejs && REQUIRE_JS in resolved(last) then r + [last.name] else r
  }

  /** The `$requeue` list holds exactly the names of the unflagged scripts
      whose dependencies resolve to `requirejs`, each once. */
  lemma {:induction false} DependentsFacts(s: seq<Script>, resolved: Script -> set<string>)
    ensures forall x :: x in Dependents(s, resolved) ==>
      exists j :: 0 <= j < |s| && s[j].name == x && !s[j].requirejs && REQUIRE_JS in resolved(s[j])
    ensures forall j :: 0 <= j < |s| && !s[j].requirejs && REQUIRE_JS in resolved(s[j]) ==>
      s[j].name in Dependents(s, resolved)
    ensures UniqueNames(s) ==> NoDuplicates(Dependents(s, resolved))
  {
    if s != [] {
      var init, last := s[..|s| - 1], s[|s| - 1];
      DependentsFacts(init, resolved);
      assert forall j :: 0 <= j < |init| ==> init[j] == s[j];
      assert UniqueNames(s) ==> last.name !in Dependents(init, resolved);
    }
  }

  /** The `$requeue` list is empty exactly when no unflagged script's
      dependencies resolve to `requirejs`. */
  lemma {:induction false} NoDependentsIff(s: seq<Script>, resolved: Script -> set<string>)
    ensures Dependents(s, resolved) == [] <==>
      forall j :: 0 <= j < |s| && !s[j].requirejs ==> REQUIRE_JS !in resolved(s[j])
  {
    if s != [] {
      var init := s[..|s| - 1];
      NoDependentsIff(init, resolved);
      assert forall j :: 0 <= j < |init| ==> init[j] == s[j];
    }
  }

  /** No script is both flagged and a dependent: the `elseif` of line 138. */
  lemma RequireAndDependentsDisjoint(s: seq<Script>, resolved: Script -> set<string>)
    requires UniqueNames(s)
    ensures forall x :: x in RequireNames(s) ==> x !in Dependents(s, resolved)
  {
    var r := Flagged(s);
    DependentsFacts(s, resolved);
    forall x | x in RequireNames(s)
      ensures x !in Dependents(s, resolved)
    {
      var k :| 0 <= k < |r| && RequireNames(s)[k] == x;
      assert s[r[k]].name == x && s[r[k]].requirejs;
    }
  }

  // ---------------------------------------------------------------------
  // The dependency lists

  /** A flagged script with `requirejs` appended to its dependencies. */
  function AddRequireJs(script: Script): Script {
    script.(dependencies := script.dependencies + [REQUIRE_JS])
  }

  /** The scripts at positions `at` with `requirejs` appended to their
      dependencies. */
  function AddRequireJsAt(s: seq<Script>, at: seq<nat>): (r: seq<Script>)
    ensures |r| == |s|
  {
    seq(|s|, j requires 0 <= j < |s| => if j in at then AddRequireJs(s[j]) else s[j])
  }

  /** Appending `requirejs` is additive, and leaves names and flags alone. */
  lemma AddRequireJsAtKeeps(s: seq<Script>, at: seq<nat>)
    ensures var r := AddRequireJsAt(s, at);
      && (forall j :: 0 <= j < |s| ==>
            r[j].name == s[j].name && r[j].requirejs == s[j].requirejs
            && s[j].dependencies <= r[j].dependencies
            && r[j].dependencies == if j in at then s[j].dependencies + [REQUIRE_JS] else s[j].dependencies)
      && (UniqueNames(s) ==> UniqueNames(r))
  {
  }

  /** One turn of the loop of lines 147-150, on the scripts: the next
      flagged script, not patched yet, gains `requirejs`. */
  lemma AddRequireJsNext(s: seq<Script>, at: seq<nat>, k: nat)
    requires k < |at|
    requires forall l :: 0 <= l < |at| ==> at[l] < |s|
    requires forall a, b :: 0 <= a < b < |at| ==> at[a] < at[b]
    ensures var j, before, after := at[k], AddRequireJsAt(s, at[..k]), AddRequireJsAt(s, at[..k + 1]);
      && before[j] == s[j]
      && after == before[j := AddRequireJs(s[j])]
      && (UniqueNames(s) ==> UniqueNames(after))
      && after[j].name == NamesAt(s, at)[k]
  {
  }

  /** Every flagged script with `requirejs` appended to its dependencies. */
  function WithRequireJs(s: seq<Script>): seq<Script> {
    AddRequireJsAt(s, Flagged(s))
  }

  // ---------------------------------------------------------------------
  // The whole fix-up

  /** The scripts and the queue after the fix-up. */
  function FixUp(s: seq<Script>, q: seq<string>, resolved: Script -> set<string>): (seq<Script>, seq<string>) {
    var requeue := Dependents(s, resolved);
    if requeue == [] then (s, q)
    else (WithRequireJs(s), RequeueAll(QueueAll(q, RequireNames(s)), requeue))
  }

  /** With no unflagged script whose dependencies resolve to `requirejs`,
      the fix-up changes nothing, even when flagged scripts exist. */
  lemma FixUpWithoutDependents(s: seq<Script>, q: seq<string>, resolved: Script -> set<string>)
    requires forall j :: 0 <= j < |s| && !s[j].requirejs ==> REQUIRE_JS !in resolved(s[j])
    ensures FixUp(s, q, resolved) == (s, q)
  {
    NoDependentsIff(s, resolved);
  }

  /** When the fix-up runs, every flagged script's dependencies become its
      old list followed by `requirejs`; every other script is unchanged. */
  lemma FixUpDependencies(s: seq<Script>, q: seq<string>, resolved: Script -> set<string>)
    requires Dependents(s, resolved) != []
    ensures var s' := FixUp(s, q, resolved).0;
      && |s'| == |s|
      && forall j :: 0 <= j < |s| ==>
        s'[j].name == s[j].name && s'[j].requirejs == s[j].requirejs
        && s'[j].dependencies == if s[j].requirejs then s[j].dependencies + [REQUIRE_JS] else s[j].dependencies
  {
  }

  /** When the fix-up runs, the dependents occupy the tail of the queue in
      iteration order, every flagged script is queued ahead of them, the
      rest of the old queue keeps its order at the head, and the queue holds
      exactly the old names, the flagged scripts and the dependents, each
      once. */
  lemma FixUpQueue(s: seq<Script>, q: seq<string>, resolved: Script -> set<string>)
    requires UniqueNames(s) && NoDuplicates(q)
    requires Dependents(s, resolved) != []
    ensures var q', requeue, require := FixUp(s, q, resolved).1, Dependents(s, resolved), RequireNames(s);
      && NoDuplicates(q')
      && |requeue| <= |q'| && q'[|q'| - |requeue|..] == requeue
      && (forall i :: 0 <= i < |q'| && q'[i] in require ==> i < |q'| - |requeue|)
      && Without(q, requeue) <= q'
      && (forall x :: x in q' <==> x in q || x in require || x in requeue)
  {
    var requeue, require := Dependents(s, resolved), RequireNames(s);
    var q1 := QueueAll(q, require);
    DependentsFacts(s, resolved);
    QueueAllFacts(q, require);
    RequeueAllMovesToTail(q1, requeue);
    WithoutFacts(q1, requeue);
    RequireAndDependentsDisjoint(s, resolved);
    var head := Without(q1, requeue);
    var q' := head + requeue;
    assert q1 == q + q1[|q|..];
    WithoutAppend(q, q1[|q|..], requeue);
    assert Without(q, requeue) <= head;
    forall i | |head| <= i < |q'|
      ensures q'[i] in requeue
    {
      assert q'[i] == requeue[i - |head|];
    }
    forall i | 0 <= i < |head|
      ensures q'[i] == head[i] && q'[i] !in requeue
    {
    }
  }

  /** The scripts of the scenario below: the loader, a flagged module
      `app`, and a `widget` that depends on the loader. */
  const WIDGET_SCRIPTS := [Script("requirejs", false, []), Script("app", true, []), Script("widget", false, ["requirejs"])]

  /** Dependency resolution in the scenario below: only `widget` needs
      `requirejs`. */
  function WidgetResolved(script: Script): set<string> {
    if script.name == "widget" then {REQUIRE_JS} else {}
  }

  /** How the scenario's scripts split into `$require` and `$requeue`. */
  lemma WidgetPartition()
    ensures Flagged(WIDGET_SCRIPTS) == [1] && RequireNames(WIDGET_SCRIPTS) == ["app"]
    ensures Dependents(WIDGET_SCRIPTS, WidgetResolved) == ["widget"]
  {
    var s := WIDGET_SCRIPTS;
    assert s[..2][..1] == [s[0]] && s[..2] == [s[0], s[1]] && [s[0]][..0] == [];
    assert Flagged([s[0]]) == [];
    assert Flagged(s[..2]) == [1];
    assert Dependents([s[0]], WidgetResolved) == [];
    assert Dependents(s[..2], WidgetResolved) == [];
  }

  /** The queue of the scenario below: `widget` is moved behind `app`. */
  lemma WidgetQueue()
    ensures RequeueAll(QueueAll(["widget", "app"], ["app"]), ["widget"]) == ["app", "widget"]
  {
    var q := ["widget", "app"];
    assert QueueAll(q, ["app"]) == q;
    assert q[..1] == ["widget"];
    assert Without(q, ["widget"]) == ["app"];
    RequeueAllMovesToTail(q, ["widget"]);
  }

  /** With `widget` queued before `app`, the fix-up gives `app` the
      `requirejs` dependency and moves `widget` behind it. */
  lemma WidgetScenario()
    ensures FixUp(WIDGET_SCRIPTS, ["widget", "app"], WidgetResolved)
      == ([Script("requirejs", false, []), Script("app", true, [REQUIRE_JS]), Script("widget", false, ["requirejs"])],
          ["app", "widget"])
  {
    var s := WIDGET_SCRIPTS;
    WidgetPartition();
    WidgetQueue();
    var s' := AddRequireJsAt(s, [1]);
    assert s'[0] == s[0] && s'[1] == Script("app", true, [REQUIRE_JS]) && s'[2] == s[2];
    assert s' == [Script("requirejs", false, []), Script("app", true, [REQUIRE_JS]), Script("widget", false, ["requirejs"])];
  }

  // ---------------------------------------------------------------------
  // The handler

  /** Lines 132-141: one pass over the collection that splits it into the
      flagged scripts and the unflagged ones that need `requirejs`. */
  method Partition(scripts: seq<Script>, resolved: Script -> set<string>)
    returns (require: seq<nat>, requeue: seq<string>)
    ensures require == Flagged(scripts)
    ensures requeue == Dependents(scripts, resolved)
  {
    require, requeue := [], [];
    var i := 0;
    while i < |scripts|
      invariant 0 <= i <= |scripts|
      invariant require == Flagged(scripts[..i])
      invariant requeue == Dependents(scripts[..i], resolved)
    {
      assert scripts[..i + 1][..i] == scripts[..i];
      var script := scripts[i];
      if script.requirejs {
        require := require + [i];
      } else if REQUIRE_JS in resolved(script) {
        requeue := requeue + [script.name];
      }
      i := i + 1;
    }
    assert scripts[..i] == scripts;
  }

  /** The `view.scripts` collection: its scripts in iteration order and its
      queue. */
  class ScriptCollection {
    var scripts: seq<Script>
    var queue: seq<string>

    ghost predicate Valid()
      reads this
    {
      UniqueNames(scripts) && NoDuplicates(queue)
    }

    constructor (scripts: seq<Script>, queue: seq<string>)
      requires UniqueNames(scripts) && NoDuplicates(queue)
      ensures Valid() && this.scripts == scripts && this.queue == queue
    {
      this.scripts := scripts;
      this.queue := queue;
    }

    /** `queue(name)`, assumed to append the name unless it is queued. */
    method Queue(name: string)
      requires Valid()
      modifies this`queue
      ensures Valid()
      ensures queue == Enqueued(old(queue), name)
    {
      EnqueuedFacts(queue, name);
      if name !in queue {
        queue := queue + [name];
      }
    }

    /** `dequeue(name)`, assumed to remove the name if it is queued. */
    method Dequeue(name: string)
      requires Valid()
      modifies this`queue
      ensures Valid()
      ensures queue == Dequeued(old(queue), name)
    {
      WithoutFacts(queue, [name]);
      var i := 0;
      var kept := [];
      while i < |queue|
        invariant 0 <= i <= |queue|
        invariant kept == Without(queue[..i], [name])
      {
        assert queue[..i + 1][..i] == queue[..i];
        if queue[i] != name {
          kept := kept + [queue[i]];
        }
        i := i + 1;
      }
      assert queue[..i] == queue;
      queue := kept;
    }

    /** The fix-up pass (lines 130-156). */
    method OnKernelResponse(resolved: Script -> set<string>)
      requires Valid()
      modifies this
      ensures Valid()
      ensures (scripts, queue) == FixUp(old(scripts), old(queue), resolved)
    {
      var require, requeue := Partition(scripts, resolved);
      if requeue == [] {
        return;
      }
      QueueFlagged(require);
      MoveToTail(requeue);
    }

    /** Lines 147-150: every flagged script gains the `requirejs`
        dependency and is queued. */
    method QueueFlagged(require: seq<nat>)
      requires Valid()
      requires forall k :: 0 <= k < |require| ==> require[k] < |scripts|
      requires forall a, b :: 0 <= a < b < |require| ==> require[a] < require[b]
      modifies this
      ensures Valid()
      ensures scripts == AddRequireJsAt(old(scripts), require)
      ensures queue == QueueAll(old(queue), NamesAt(old(scripts), require))
    {
      ghost var s0, q0 := scripts, queue;
      ghost var names := NamesAt(s0, require);
      var k := 0;
      while k < |require|
        invariant 0 <= k <= |require|
        invariant Valid()
        invariant scripts == AddRequireJsAt(s0, require[..k])
        invariant QueueAll(queue, names[k..]) == QueueAll(q0, names)
      {
        var j := require[k];
        AddRequireJsNext(s0, require, k);
        QueueAllNext(queue, names, k);
        scripts := scripts[j := AddRequireJs(scripts[j])];
        Queue(scripts[j].name);
        k := k + 1;
      }
      assert require[..k] == require;
    }

    /** Lines 152-155: every dependent script is dequeued and queued again,
        which moves it to the tail. */
    method MoveToTail(requeue: seq<string>)
      requires Valid()
      modifies this`queue
      ensures Valid()
      ensures queue == RequeueAll(old(queue), requeue)
    {
      ghost var q0 := queue;
      var k := 0;
      while k < |requeue|
        invariant 0 <= k <= |requeue|
        invariant Valid()
        invariant RequeueAll(queue, requeue[k..]) == RequeueAll(q0, requeue)
      {
        var name := requeue[k];
        RequeueAllNext(queue, requeue, k);
        Dequeue(name);
        Queue(name);
        k := k + 1;
      }
    }
  }
}
