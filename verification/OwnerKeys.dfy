/**
 Replicas racing for an owner's data key. Each looks in its cache, loads, creates if
 absent, loads again and fills its cache, and any number of calls interleave between
 those steps over one shared table.
 */
module OwnerKeys {
  import opened Protocol
  import opened Sealing

  datatype Stage =
    | Looking
    | Loading
    | Creating
    | Reloading
    | Filling(key: Bytes)
    | Done(answer: Option<Bytes>)

  datatype Call = Call(replica: nat, owner: Owner, stage: Stage)

  datatype Replica = Replica(master: Bytes, cache: map<Owner, Bytes>)

  datatype Cluster = Cluster(table: KeyTable, replicas: seq<Replica>, calls: map<nat, Call>)

  /** `Fails` is a database error at any of a call's table accesses. */
  datatype Action =
    | Begin(c: nat, replica: nat, owner: Owner)
    | Look(c: nat)
    | Load(c: nat)
    | Create(c: nat, drawn: Bytes, nonce: nat)
    | Reload(c: nat)
    | Fill(c: nat)
    | Fails(c: nat)

  predicate In(k: Cluster, c: nat) {
    c in k.calls && k.calls[c].replica < |k.replicas|
  }

  function At(k: Cluster, c: nat, stage: Stage): Cluster
    requires c in k.calls
  {
    k.(calls := k.calls[c := k.calls[c].(stage := stage)])
  }

  /** A loaded row is used only if this replica's master opens it. */
  function Unwrap(k: Cluster, c: nat): Cluster
    requires In(k, c)
  {
    match DataKey(k.table, k.replicas[k.calls[c].replica].master, k.calls[c].owner)
    case Some(key) => At(k, c, Filling(key))
    case None => At(k, c, Done(None))
  }

  function Step(k: Cluster, a: Action): Cluster {
    if a.Begin? then
      if a.c in k.calls || a.replica >= |k.replicas| then k
      else k.(calls := k.calls[a.c := Call(a.replica, a.owner, if ValidOwner(a.owner) then Looking else Done(None))])
    else if !In(k, a.c) then k
    else
      var call := k.calls[a.c];
      var r := k.replicas[call.replica];
      match a
      case Look(c) =>
        if !call.stage.Looking? then k
        else if call.owner in r.cache then At(k, c, Done(Some(r.cache[call.owner])))
        else At(k, c, Loading)
      case Load(c) =>
        if !call.stage.Loading? then k
        else if call.owner !in k.table then At(k, c, Creating)
        else Unwrap(k, c)
      case Create(c, drawn, nonce) =>
        if !call.stage.Creating? then k
        else At(k, c, Reloading).(table := InsertIfAbsent(k.table, call.owner, Seal(r.master, nonce, drawn)))
      case Reload(c) =>
        if !call.stage.Reloading? then k
        else Unwrap(k, c)
      case Fill(c) =>
        if !call.stage.Filling? then k
        else
          var key := call.stage.key;
          At(k, c, Done(Some(key))).(
          replicas := k.replicas[call.replica := r.(cache := r.cache[call.owner := key])])
      case Fails(c) =>
        if call.stage.Loading? || call.stage.Creating? || call.stage.Reloading? then At(k, c, Done(None)) else k
  }

  function After(k: Cluster, run: seq<Action>): Cluster {
    if run == [] then k else Step(After(k, run[..|run| - 1]), run[|run| - 1])
  }

  /** What a replica believes an owner's key to be is what the table opens to under its master. */
  predicate Agrees(k: Cluster, r: nat, o: Owner, key: Bytes) {
    r < |k.replicas| && DataKey(k.table, k.replicas[r].master, o) == Some(key)
  }

  predicate CachesAgree(k: Cluster) {
    forall r: nat, o :: r < |k.replicas| && o in k.replicas[r].cache ==> Agrees(k, r, o, k.replicas[r].cache[o])
  }

  /** What a call holds in hand agrees with the table too. */
  predicate CallAgrees(k: Cluster, call: Call) {
    && call.replica < |k.replicas|
    && (call.stage.Filling? ==> Agrees(k, call.replica, call.owner, call.stage.key))
    && (call.stage.Done? && call.stage.answer.Some? ==> Agrees(k, call.replica, call.owner, call.stage.answer.value))
    && (call.stage.Reloading? ==> call.owner in k.table)
  }

  predicate CallsAgree(k: Cluster) {
    forall c :: c in k.calls ==> CallAgrees(k, k.calls[c])
  }

  predicate Consistent(k: Cluster) {
    CachesAgree(k) && CallsAgree(k)
  }

  predicate Start(k: Cluster) {
    k.calls == map[] && forall r :: 0 <= r < |k.replicas| ==> k.replicas[r].cache == map[]
  }

  /** A row is written at most once, and replicas keep their masters. */
  lemma WriteOnceStep(k: Cluster, a: Action)
    ensures forall o :: o in k.table ==> o in Step(k, a).table && Step(k, a).table[o] == k.table[o]
    ensures |Step(k, a).replicas| == |k.replicas|
    ensures forall r :: 0 <= r < |k.replicas| ==> Step(k, a).replicas[r].master == k.replicas[r].master
  {
  }

  lemma {:induction false} WriteOnce(k: Cluster, run: seq<Action>, o: Owner)
    requires o in k.table
    ensures o in After(k, run).table && After(k, run).table[o] == k.table[o]
  {
    if run != [] {
      WriteOnce(k, run[..|run| - 1], o);
      WriteOnceStep(After(k, run[..|run| - 1]), run[|run| - 1]);
    }
  }

  lemma AgreesStays(k: Cluster, a: Action)
    ensures forall r: nat, o, key :: Agrees(k, r, o, key) ==> Agrees(Step(k, a), r, o, key)
  {
    hide Step;
    WriteOnceStep(k, a);
  }

  lemma CachesStep(k: Cluster, a: Action)
    requires Consistent(k)
    ensures CachesAgree(Step(k, a))
  {
    hide Agrees, InsertIfAbsent;
    AgreesStays(k, a);
    if a.Fill? && a.c in k.calls && k.calls[a.c].stage.Filling? {
      assert CallAgrees(k, k.calls[a.c]);
    }
  }

  /** Only the call that steps moves. */
  lemma OthersStay(k: Cluster, a: Action, c: nat)
    requires c != a.c
    ensures c in Step(k, a).calls <==> c in k.calls
    ensures c in k.calls ==> Step(k, a).calls[c] == k.calls[c]
  {
  }

  /** The agreement of a call that stays where it is rests on the table alone. */
  lemma StillAgrees(k: Cluster, a: Action, c: nat)
    requires Consistent(k) && c in k.calls && c in Step(k, a).calls && Step(k, a).calls[c] == k.calls[c]
    ensures CallAgrees(Step(k, a), k.calls[c])
  {
    AgreesStays(k, a);
    WriteOnceStep(k, a);
    hide Step, Agrees, CachesAgree;
    assert CallAgrees(k, k.calls[c]);
  }

  /** A call's own step leaves it agreeing. */
  lemma OwnStepAgrees(k: Cluster, a: Action)
    requires Consistent(k) && a.c in Step(k, a).calls
    ensures CallAgrees(Step(k, a), Step(k, a).calls[a.c])
  {
    if a.c in k.calls {
      assert CallAgrees(k, k.calls[a.c]);
      if Step(k, a).calls[a.c] == k.calls[a.c] {
        StillAgrees(k, a, a.c);
      }
    }
  }

  lemma CallsStep(k: Cluster, a: Action)
    requires Consistent(k)
    ensures CallsAgree(Step(k, a))
  {
    hide Step, CallAgrees;
    forall c | c in Step(k, a).calls
      ensures CallAgrees(Step(k, a), Step(k, a).calls[c])
    {
      if c == a.c {
        OwnStepAgrees(k, a);
      } else {
        OthersStay(k, a, c);
        StillAgrees(k, a, c);
      }
    }
  }

  lemma ConsistentStep(k: Cluster, a: Action)
    requires Consistent(k)
    ensures Consistent(Step(k, a))
  {
    CachesStep(k, a);
    CallsStep(k, a);
  }

  lemma {:induction false} ConsistentRun(k: Cluster, run: seq<Action>)
    requires Start(k)
    ensures Consistent(After(k, run))
    ensures |After(k, run).replicas| == |k.replicas|
    ensures forall r :: 0 <= r < |k.replicas| ==> After(k, run).replicas[r].master == k.replicas[r].master
  {
    if run != [] {
      ConsistentRun(k, run[..|run| - 1]);
      ConsistentStep(After(k, run[..|run| - 1]), run[|run| - 1]);
      WriteOnceStep(After(k, run[..|run| - 1]), run[|run| - 1]);
    }
  }

  predicate Answers(k: Cluster, c: nat, o: Owner, key: Bytes) {
    c in k.calls && k.calls[c].owner == o && k.calls[c].stage == Done(Some(key))
  }

  /**
   Replicas that share a master converge: whichever of the racing creations wins, every call
   for an owner, early or late and on any replica, answers the same key.
   */
  lemma RaceConverges(k: Cluster, run: seq<Action>, later: seq<Action>, o: Owner, c1: nat, c2: nat, key1: Bytes, key2: Bytes)
    requires Start(k)
    requires forall r, q :: 0 <= r < |k.replicas| && 0 <= q < |k.replicas| ==>
               k.replicas[r].master == k.replicas[q].master
    requires Answers(After(k, run), c1, o, key1)
    requires Answers(After(k, run + later), c2, o, key2)
    ensures key1 == key2
    ensures forall r: nat :: r < |After(k, run + later).replicas| && o in After(k, run + later).replicas[r].cache ==>
              After(k, run + later).replicas[r].cache[o] == key1
  {
    ConsistentRun(k, run);
    ConsistentRun(k, run + later);
    AfterSplits(k, run, later);
    WriteOnce(After(k, run), later, o);
    var t := After(k, run + later);
    assert Agrees(t, t.calls[c2].replica, o, key2);
    forall r: nat | r < |t.replicas| && o in t.replicas[r].cache
      ensures t.replicas[r].cache[o] == key1
    {
      assert Agrees(t, r, o, t.replicas[r].cache[o]);
    }
  }

  lemma {:induction false} AfterSplits(k: Cluster, run: seq<Action>, rest: seq<Action>)
    ensures After(k, run + rest) == After(After(k, run), rest)
  {
    if rest == [] {
      assert run + rest == run;
    } else {
      assert (run + rest)[..|run + rest| - 1] == run + rest[..|rest| - 1];
      AfterSplits(k, run, rest[..|rest| - 1]);
    }
  }

  /** So what one replica seals for an owner, any other opens. */
  lemma SealedHereOpensThere(k: Cluster, run: seq<Action>, later: seq<Action>, o: Owner, c1: nat, c2: nat,
                             key1: Bytes, key2: Bytes, nonce: nat, plain: Bytes)
    requires Start(k)
    requires forall r, q :: 0 <= r < |k.replicas| && 0 <= q < |k.replicas| ==>
               k.replicas[r].master == k.replicas[q].master
    requires Answers(After(k, run), c1, o, key1)
    requires Answers(After(k, run + later), c2, o, key2)
    ensures Open(key2, Seal(key1, nonce, plain)) == Some(plain)
  {
    RaceConverges(k, run, later, o, c1, c2, key1, key2);
  }

  /** Without the shared master there is no convergence to a wrong key, only failure: two masters never both answer. */
  lemma TwoMastersNeverBothAnswer(k: Cluster, run: seq<Action>, o: Owner, c1: nat, c2: nat, key1: Bytes, key2: Bytes)
    requires Start(k)
    requires Answers(After(k, run), c1, o, key1) && Answers(After(k, run), c2, o, key2)
    ensures var t := After(k, run);
            && t.calls[c1].replica < |t.replicas| && t.calls[c2].replica < |t.replicas|
            && t.replicas[t.calls[c1].replica].master == t.replicas[t.calls[c2].replica].master
  {
    ConsistentRun(k, run);
    var t := After(k, run);
    assert Agrees(t, t.calls[c1].replica, o, key1) && Agrees(t, t.calls[c2].replica, o, key2);
  }

  // ---- calls that answer ----

  /** The row is there, and this replica's master does not open it. */
  predicate Locked(k: Cluster, call: Call) {
    && call.replica < |k.replicas| && call.owner in k.table
    && Open(k.replicas[call.replica].master, k.table[call.owner]) == None
  }

  predicate Failed(run: seq<Action>, c: nat) {
    exists n :: 0 <= n < |run| && run[n] == Fails(c)
  }

  lemma LockedStays(k: Cluster, a: Action, call: Call)
    requires Locked(k, call)
    ensures Locked(Step(k, a), call)
  {
    hide Step;
    WriteOnceStep(k, a);
  }

  lemma CallStays(k: Cluster, a: Action, c: nat)
    requires c in k.calls
    ensures c in Step(k, a).calls && Step(k, a).calls[c] == k.calls[c].(stage := Step(k, a).calls[c].stage)
    ensures k.calls[c].stage.Done? ==> Step(k, a).calls[c] == k.calls[c]
  {
  }

  /** How a call can come to answer nothing at a step. */
  lemma TurnedToNone(k: Cluster, a: Action, c: nat)
    requires Consistent(k) && c in Step(k, a).calls && Step(k, a).calls[c].stage == Done(None)
    requires !(c in k.calls && k.calls[c].stage == Done(None))
    ensures !ValidOwner(Step(k, a).calls[c].owner) || a == Fails(c) || Locked(Step(k, a), Step(k, a).calls[c])
  {
    if c in k.calls {
      assert CallAgrees(k, k.calls[c]);
    }
  }

  /** A call that answers nothing has an owner that is none, met a database error, or found a row its master does not open. */
  lemma {:induction false} NoneIsExplained(k: Cluster, run: seq<Action>, c: nat)
    requires Start(k) && c in After(k, run).calls && After(k, run).calls[c].stage == Done(None)
    ensures var t := After(k, run);
            !ValidOwner(t.calls[c].owner) || Failed(run, c) || Locked(t, t.calls[c])
  {
    hide Step, Locked, Consistent;
    var n := |run| - 1;
    var before := After(k, run[..n]);
    ConsistentRun(k, run[..n]);
    if c in before.calls && before.calls[c].stage == Done(None) {
      NoneIsExplained(k, run[..n], c);
      CallStays(before, run[n], c);
      if Failed(run[..n], c) {
        var m :| 0 <= m < n && run[..n][m] == Fails(c);
        assert run[m] == Fails(c);
      } else if Locked(before, before.calls[c]) {
        LockedStays(before, run[n], before.calls[c]);
      }
    } else {
      TurnedToNone(before, run[n], c);
    }
  }

  /** So a call for an owner, once done and without a database error, answers exactly the key the table opens to. */
  lemma DoneAnswersTheKey(k: Cluster, run: seq<Action>, c: nat)
    requires Start(k) && c in After(k, run).calls && After(k, run).calls[c].stage.Done?
    requires ValidOwner(After(k, run).calls[c].owner) && !Failed(run, c)
    ensures var t := After(k, run);
            var call := t.calls[c];
            && call.replica < |t.replicas| && call.owner in t.table
            && call.stage.answer == Open(t.replicas[call.replica].master, t.table[call.owner])
  {
    ConsistentRun(k, run);
    var t := After(k, run);
    assert CallAgrees(t, t.calls[c]);
    if t.calls[c].stage.answer.None? {
      NoneIsExplained(k, run, c);
    }
  }

  /** Its next step is the call's to take. */
  predicate OwnTurn(k: Cluster, a: Action, c: nat) {
    && c in k.calls
    && match k.calls[c].stage
       case Looking => a == Look(c)
       case Loading => a == Load(c)
       case Creating => a.Create? && a.c == c
       case Reloading => a == Reload(c)
       case Filling(_) => a == Fill(c)
       case Done(_) => false
  }

  function Left(stage: Stage): nat {
    match stage
    case Looking => 5
    case Loading => 4
    case Creating => 3
    case Reloading => 2
    case Filling(_) => 1
    case Done(_) => 0
  }

  lemma TurnGetsOn(k: Cluster, a: Action, c: nat)
    requires Consistent(k) && c in k.calls
    ensures c in Step(k, a).calls && Left(Step(k, a).calls[c].stage) <= Left(k.calls[c].stage)
    ensures OwnTurn(k, a, c) ==> Left(Step(k, a).calls[c].stage) < Left(k.calls[c].stage)
  {
    assert CallAgrees(k, k.calls[c]);
  }

  function Turns(k: Cluster, run: seq<Action>, c: nat): nat {
    if run == [] then 0
    else Turns(k, run[..|run| - 1], c) + (if OwnTurn(After(k, run[..|run| - 1]), run[|run| - 1], c) then 1 else 0)
  }

  /** And it is done after at most five steps of its own, whatever all the others do in between. */
  lemma {:induction false} DoneInFive(k: Cluster, run: seq<Action>, c: nat)
    requires Consistent(k) && c in k.calls
    ensures Consistent(After(k, run)) && c in After(k, run).calls
    ensures Left(After(k, run).calls[c].stage) + Turns(k, run, c) <= Left(k.calls[c].stage) <= 5
    ensures Turns(k, run, c) >= 5 ==> After(k, run).calls[c].stage.Done?
  {
    hide Step, Consistent, OwnTurn;
    if run != [] {
      DoneInFive(k, run[..|run| - 1], c);
      TurnGetsOn(After(k, run[..|run| - 1]), run[|run| - 1], c);
      ConsistentStep(After(k, run[..|run| - 1]), run[|run| - 1]);
    }
  }

  /** A call that is done has filled its replica's cache, unless it answered nothing. */
  lemma FillFills(k: Cluster, c: nat)
    requires Consistent(k) && c in k.calls && k.calls[c].stage.Filling?
    ensures var t, call := Step(k, Fill(c)), k.calls[c];
            && t.calls[c].stage == Done(Some(call.stage.key))
            && call.owner in t.replicas[call.replica].cache
            && t.replicas[call.replica].cache[call.owner] == call.stage.key
  {
    assert CallAgrees(k, k.calls[c]);
  }

  // ---- one call ----

  /** A call for no proper owner is over as it begins; any other is under way, and no other call notices. */
  lemma CallsBegin(k: Cluster, c: nat, replica: nat, o: Owner)
    ensures var t := Step(k, Begin(c, replica, o));
            if c in k.calls || replica >= |k.replicas| then t == k
            else
              && t == k.(calls := t.calls) && t.calls.Keys == k.calls.Keys + {c}
              && (forall d :: d in k.calls ==> t.calls[d] == k.calls[d])
              && t.calls[c].replica == replica && t.calls[c].owner == o
              && (if o.kind == "" || o.id == "" then t.calls[c].stage == Done(None) else !t.calls[c].stage.Done?)
  {
  }

  /** A database error ends a call exactly while it is at the table. */
  lemma ErrorsEndCalls(k: Cluster, c: nat)
    requires In(k, c)
    ensures var was, t := k.calls[c].stage, Step(k, Fails(c));
            if was.Looking? || was.Filling? || was.Done? then t == k
            else t == k.(calls := k.calls[c := k.calls[c].(stage := Done(None))])
  {
  }

  /** The steps of a call for a proper owner that nothing gets between. */
  function Alone(c: nat, replica: nat, o: Owner, drawn: Bytes, nonce: nat): seq<Action> {
    [Begin(c, replica, o), Look(c), Load(c), Create(c, drawn, nonce), Reload(c), Fill(c)]
  }

  /** The cluster with one call as given. */
  function Having(k: Cluster, c: nat, call: Call): Cluster {
    k.(calls := k.calls[c := call])
  }

  lemma LoadsNext(k: Cluster, c: nat, replica: nat, o: Owner)
    requires c !in k.calls && replica < |k.replicas| && ValidOwner(o) && o !in k.replicas[replica].cache
    ensures Step(Step(k, Begin(c, replica, o)), Look(c)) == Having(k, c, Call(replica, o, Loading))
  {
  }

  lemma OpensNext(k: Cluster, c: nat, replica: nat, o: Owner, stage: Stage)
    requires replica < |k.replicas| && o in k.table && (stage == Loading || stage == Reloading)
    ensures var key := Open(k.replicas[replica].master, k.table[o]);
            Step(Having(k, c, Call(replica, o, stage)), if stage == Loading then Load(c) else Reload(c)) ==
            Having(k, c, Call(replica, o, if key.Some? then Filling(key.value) else Done(None)))
  {
  }

  lemma FillsNext(k: Cluster, c: nat, replica: nat, o: Owner, key: Bytes)
    requires replica < |k.replicas|
    ensures var r := k.replicas[replica];
            Step(Having(k, c, Call(replica, o, Filling(key))), Fill(c)) ==
            Having(k.(replicas := k.replicas[replica := r.(cache := r.cache[o := key])]), c,
                   Call(replica, o, Done(Some(key))))
  {
  }

  lemma NotItsTurn(k: Cluster, c: nat, replica: nat, o: Owner, stage: Stage, drawn: Bytes, nonce: nat)
    requires replica < |k.replicas| && (stage.Filling? || stage.Done?)
    ensures var u := Having(k, c, Call(replica, o, stage));
            && Step(u, Create(c, drawn, nonce)) == u && Step(u, Reload(c)) == u
            && Step(u, Load(c)) == u
            && (stage.Done? ==> Step(u, Fill(c)) == u)
  {
  }

  lemma AnswersNext(k: Cluster, c: nat, replica: nat, o: Owner)
    requires c !in k.calls && replica < |k.replicas| && ValidOwner(o) && o in k.replicas[replica].cache
    ensures Step(Step(k, Begin(c, replica, o)), Look(c)) ==
            Having(k, c, Call(replica, o, Done(Some(k.replicas[replica].cache[o]))))
  {
  }

  /** Left alone, a call answers the cached key and changes nothing but itself. */
  lemma CachedIsAnswered(k: Cluster, c: nat, replica: nat, o: Owner, drawn: Bytes, nonce: nat)
    requires c !in k.calls && replica < |k.replicas| && ValidOwner(o) && o in k.replicas[replica].cache
    ensures After(k, Alone(c, replica, o, drawn, nonce)) ==
            Having(k, c, Call(replica, o, Done(Some(k.replicas[replica].cache[o]))))
  {
    hide Step, Having;
    SixSteps(k, Alone(c, replica, o, drawn, nonce));
    AnswersNext(k, c, replica, o);
    NotItsTurn(k, c, replica, o, Done(Some(k.replicas[replica].cache[o])), drawn, nonce);
  }

  /** Without a cached key it answers what its master makes of the row that is there, and remembers a key. */
  lemma StoredIsOpened(k: Cluster, c: nat, replica: nat, o: Owner, drawn: Bytes, nonce: nat)
    requires c !in k.calls && replica < |k.replicas| && ValidOwner(o) && o !in k.replicas[replica].cache
    requires o in k.table
    ensures var r := k.replicas[replica];
            var key := Open(r.master, k.table[o]);
            After(k, Alone(c, replica, o, drawn, nonce)) ==
            Having(if key.None? then k
                   else k.(replicas := k.replicas[replica := r.(cache := r.cache[o := key.value])]),
                   c, Call(replica, o, Done(key)))
  {
    hide Step, Having;
    SixSteps(k, Alone(c, replica, o, drawn, nonce));
    LoadsNext(k, c, replica, o);
    OpensNext(k, c, replica, o, Loading);
    var key := Open(k.replicas[replica].master, k.table[o]);
    NotItsTurn(k, c, replica, o, if key.Some? then Filling(key.value) else Done(None), drawn, nonce);
    if key.Some? {
      FillsNext(k, c, replica, o, key.value);
    }
  }

  lemma CreatesNext(k: Cluster, c: nat, replica: nat, o: Owner, drawn: Bytes, nonce: nat)
    requires replica < |k.replicas| && o !in k.table
    ensures Step(Step(Having(k, c, Call(replica, o, Loading)), Load(c)), Create(c, drawn, nonce)) ==
            Having(k.(table := k.table[o := Seal(k.replicas[replica].master, nonce, drawn)]), c,
                   Call(replica, o, Reloading))
  {
  }

  /** Without a row either, it answers the key it draws, and leaves that in a row of its own under its master. */
  lemma MissingIsMade(k: Cluster, c: nat, replica: nat, o: Owner, drawn: Bytes, nonce: nat)
    requires c !in k.calls && replica < |k.replicas| && ValidOwner(o) && o !in k.replicas[replica].cache
    requires o !in k.table
    ensures var r := k.replicas[replica];
            After(k, Alone(c, replica, o, drawn, nonce)) ==
            Having(k.(table := k.table[o := Seal(r.master, nonce, drawn)],
                      replicas := k.replicas[replica := r.(cache := r.cache[o := drawn])]),
                   c, Call(replica, o, Done(Some(drawn))))
  {
    hide Step, Having;
    SixSteps(k, Alone(c, replica, o, drawn, nonce));
    LoadsNext(k, c, replica, o);
    CreatesNext(k, c, replica, o, drawn, nonce);
    var u := k.(table := k.table[o := Seal(k.replicas[replica].master, nonce, drawn)]);
    OpensNext(u, c, replica, o, Reloading);
    FillsNext(u, c, replica, o, drawn);
  }

  lemma SixSteps(k: Cluster, run: seq<Action>)
    requires |run| == 6
    ensures After(k, run) == Step(Step(Step(Step(Step(Step(k, run[0]), run[1]), run[2]), run[3]), run[4]), run[5])
  {
    hide Step;
    assert run[..5][..4] == run[..4] && run[..4][..3] == run[..3] && run[..3][..2] == run[..2];
    assert run[..2][..1] == run[..1] && run[..1][..0] == [];
    assert After(k, run[..1]) == Step(k, run[0]);
    assert After(k, run[..2]) == Step(After(k, run[..1]), run[1]);
    assert After(k, run[..3]) == Step(After(k, run[..2]), run[2]);
    assert After(k, run[..4]) == Step(After(k, run[..3]), run[3]);
    assert After(k, run[..5]) == Step(After(k, run[..4]), run[4]);
  }
}
