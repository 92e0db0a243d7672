/** The SPDK thread library's initialisation flag, used sequentially and without `SpdkApp`. */
module ThreadLib {

  /** The calls into the C library, with the number of threads alive at a fini. */
  datatype Call = InitOk | InitFailed | Fini(alive: nat)

  /** The Rust flag, whether the C library is up, the SPDK threads alive, and the calls made. */
  datatype Lib = Lib(flag: bool, up: bool, threads: nat, calls: seq<Call>)

  const START := Lib(false, false, 0, [])

  datatype Action =
    | Create(initFirst: bool, rc: int, nulInName: bool, created: bool)  // current / attach
    | DropThread

  predicate Enabled(s: Lib, a: Action) {
    a.DropThread? ==> s.threads > 0
  }

  function Init(s: Lib, rc: int): Lib {
    if s.flag then s
    else if rc == 0 then s.(flag := true, up := true, calls := s.calls + [InitOk])
    else s.(calls := s.calls + [InitFailed])
  }

  function Shutdown(s: Lib): Lib {
    if s.flag then s.(flag := false, up := false, calls := s.calls + [Fini(s.threads)]) else s
  }

  /** Whether the creation returns a thread. */
  predicate Succeeds(s: Lib, a: Action) {
    a.Create? && (a.initFirst ==> s.flag || a.rc == 0) && !a.nulInName && a.created
  }

  function Apply(s: Lib, a: Action): Lib
    requires Enabled(s, a)
  {
    match a
    case Create(initFirst, rc, _, _) =>
      var t := if initFirst then Init(s, rc) else s;
      if Succeeds(s, a) then t.(threads := t.threads + 1) else t
    case DropThread =>
      var t := s.(threads := s.threads - 1);
      if t.threads == 0 then Shutdown(t) else t
  }

  predicate Feasible(s: Lib, acts: seq<Action>)
    decreases |acts|
  {
    acts == [] || (Enabled(s, acts[0]) && Feasible(Apply(s, acts[0]), acts[1..]))
  }

  function Run(s: Lib, acts: seq<Action>): Lib
    requires Feasible(s, acts)
    decreases |acts|
  {
    if acts == [] then s else Run(Apply(s, acts[0]), acts[1..])
  }

  /** Reads a call history: successful inits and finis alternate, beginning with an init, inits are
      tried only while the library is down, and finis happen with no thread alive. */
  ghost predicate Alternates(calls: seq<Call>, up: bool) {
    if calls == [] then !up
    else
      var before, last := calls[..|calls| - 1], calls[|calls| - 1];
      match last
      case InitOk => up && Alternates(before, false)
      case InitFailed => !up && Alternates(before, false)
      case Fini(alive) => !up && alive == 0 && Alternates(before, true)
  }

  ghost predicate Valid(s: Lib) {
    s.flag == s.up && Alternates(s.calls, s.up)
  }

  lemma StepValid(s: Lib, a: Action)
    requires Valid(s) && Enabled(s, a)
    ensures Valid(Apply(s, a))
  {
    forall call
      ensures (s.calls + [call])[..|s.calls|] == s.calls
    {
    }
  }

  /** Over every sequence of creations, failures included, and drops: the flag says whether the C
      library is up, and the calls alternate. */
  lemma {:induction false} RunValid(s: Lib, acts: seq<Action>)
    requires Valid(s) && Feasible(s, acts)
    ensures Valid(Run(s, acts))
    decreases |acts|
  {
    if acts != [] {
      StepValid(s, acts[0]);
      RunValid(Apply(s, acts[0]), acts[1..]);
    }
  }

  /** One action leaves the library up without threads exactly if it is a failed creation that found
      no thread, but found the library up or brought it up. */
  lemma IdleLibrary(s: Lib, a: Action)
    requires Valid(s) && Enabled(s, a)
    ensures var t := Apply(s, a);
            t.up && t.threads == 0 <==>
            a.Create? && !Succeeds(s, a) && s.threads == 0 && (s.up || (a.initFirst && a.rc == 0))
  {
  }

  lemma {:induction false} RunSnoc(s: Lib, acts: seq<Action>, a: Action)
    ensures Feasible(s, acts + [a]) <==> Feasible(s, acts) && Enabled(Run(s, acts), a)
    ensures Feasible(s, acts + [a]) ==> Run(s, acts + [a]) == Apply(Run(s, acts), a)
    decreases |acts|
  {
    if acts == [] {
      assert acts + [a] == [a] && [a][1..] == [];
    } else {
      assert (acts + [a])[0] == acts[0] && (acts + [a])[1..] == acts[1..] + [a];
      if Enabled(s, acts[0]) {
        RunSnoc(Apply(s, acts[0]), acts[1..], a);
      }
    }
  }

  /** The creation fails after the library is ready: its name holds a NUL, or SPDK gives no thread. */
  predicate Fails(a: Action) {
    a.Create? && (a.nulInName || !a.created)
  }

  /** Creation `k` found no thread, asked for the library, which could start, and failed; nothing but
      creations failing like it came after. */
  ghost predicate StrandedAt(acts: seq<Action>, k: nat)
    requires Feasible(START, acts)
  {
    && k < |acts| && Fails(acts[k]) && acts[k].initFirst && acts[k].rc == 0
    && Feasible(START, acts[..k]) && Run(START, acts[..k]).threads == 0
    && forall j :: k < j < |acts| ==> Fails(acts[j])
  }

  lemma StrandedStep(init: seq<Action>, a: Action, k: nat)
    requires Feasible(START, init + [a]) && Feasible(START, init)
    ensures StrandedAt(init + [a], k) <==>
            if k == |init| then Fails(a) && a.initFirst && a.rc == 0 && Run(START, init).threads == 0
            else StrandedAt(init, k) && Fails(a)
  {
    var acts := init + [a];
    if k < |init| {
      assert acts[..k] == init[..k] && acts[|init|] == a;
      assert forall j :: 0 <= j < |init| ==> acts[j] == init[j];
    } else if k == |init| {
      assert acts[..k] == init;
    }
  }

  /** "The library is up only while a thread is alive", over every run of creations and drops: it
      fails if and only if the run ends in creations that failed on their name or in SPDK, the first
      of which had started the library with no thread alive. */
  lemma {:induction false} StrandedRuns(acts: seq<Action>)
    requires Feasible(START, acts)
    ensures var t := Run(START, acts); t.up && t.threads == 0 <==> exists k :: StrandedAt(acts, k)
  {
    if acts != [] {
      var init, a := acts[..|acts| - 1], acts[|acts| - 1];
      assert acts == init + [a];
      RunSnoc(START, init, a);
      StrandedRuns(init);
      RunValid(START, init);
      IdleLibrary(Run(START, init), a);
      forall k
        ensures StrandedAt(acts, k) <==>
                if k == |init| then Fails(a) && a.initFirst && a.rc == 0 && Run(START, init).threads == 0
                else StrandedAt(init, k) && Fails(a)
      {
        StrandedStep(init, a, k);
      }
      assert StrandedAt(acts, |init|) <==>
             Fails(a) && a.initFirst && a.rc == 0 && Run(START, init).threads == 0;
      assert !StrandedAt(init, |init|);
    }
  }

  /** The creations that returned a thread. */
  function Created(s: Lib, acts: seq<Action>): nat
    requires Feasible(s, acts)
    decreases |acts|
  {
    if acts == [] then 0
    else (if Apply(s, acts[0]).threads > s.threads then 1 else 0) + Created(Apply(s, acts[0]), acts[1..])
  }

  function Dropped(acts: seq<Action>): nat {
    if acts == [] then 0 else (if acts[0].DropThread? then 1 else 0) + Dropped(acts[1..])
  }

  /** A creation returns a thread exactly when the library is ready or was not asked for, the name
      holds no NUL, and SPDK gives one; anything else it returns is no thread. */
  lemma CreationRule(s: Lib, initFirst: bool, rc: int, nulInName: bool, created: bool)
    ensures var t := Apply(s, Create(initFirst, rc, nulInName, created));
            t.threads == s.threads + if (!initFirst || s.flag || rc == 0) && !nulInName && created then 1 else 0
  {
  }

  /** The threads alive are the creations that returned one, less the drops. */
  lemma {:induction false} ThreadsBalance(s: Lib, acts: seq<Action>)
    requires Feasible(s, acts)
    ensures Run(s, acts).threads + Dropped(acts) == s.threads + Created(s, acts)
    decreases |acts|
  {
    if acts != [] {
      ThreadsBalance(Apply(s, acts[0]), acts[1..]);
    }
  }

  /** Over every run of drops and of creations that ask for the library first: while a thread is
      alive the library is up. */
  lemma {:induction false} ThreadsNeedLibrary(acts: seq<Action>)
    requires Feasible(START, acts)
    requires forall a :: a in acts && a.Create? ==> a.initFirst
    ensures Run(START, acts).threads > 0 ==> Run(START, acts).up
  {
    if acts != [] {
      var init, a := acts[..|acts| - 1], acts[|acts| - 1];
      assert acts == init + [a];
      RunSnoc(START, init, a);
      ThreadsNeedLibrary(init);
      RunValid(START, init);
    }
  }

  /** A name with a NUL byte strands the library: it was initialised before the name was checked. */
  lemma NulNameStrandsLibrary()
    ensures var t := Run(START, [Create(true, 0, true, true)]);
            t.up && t.threads == 0
  {
    var acts := [Create(true, 0, true, true)];
    assert acts[1..] == [];
  }

  // ----- the functions of thread.rs

  class GlobalLib {
    var flag: bool
    var up: bool
    var threads: nat
    ghost var calls: seq<Call>

    ghost function View(): Lib
      reads this
    {
      Lib(flag, up, threads, calls)
    }

    constructor ()
      ensures View() == START && Valid(View())
    {
      flag, up, threads, calls := false, false, 0, [];
    }

    /** `thread_lib_init` and `thread_lib_init_ext`; `rc` is the C function's answer. */
    method ThreadLibInit(rc: int) returns (ok: bool)
      modifies this
      ensures ok == (old(flag) || rc == 0)
      ensures View() == Init(old(View()), rc)
    {
      var was := flag;
      flag := true;
      if was {
        return true;
      }
      if rc != 0 {
        calls := calls + [InitFailed];
        flag := false;
        return false;
      }
      calls := calls + [InitOk];
      up := true;
      return true;
    }

    /** `thread_lib_fini` */
    method ThreadLibFini()
      modifies this
      ensures View() == Shutdown(old(View()))
    {
      var was := flag;
      flag := false;
      if was {
        calls := calls + [Fini(threads)];
        up := false;
      }
    }

    /** `SpdkThread::attach` */
    method Attach(nulInName: bool, created: bool) returns (ok: bool)
      requires Valid(View())
      modifies this
      ensures Valid(View())
      ensures ok <==> !nulInName && created
      ensures threads == old(threads) + if ok then 1 else 0
      ensures View() == Apply(old(View()), Create(false, 0, nulInName, created))
    {
      StepValid(View(), Create(false, 0, nulInName, created));
      if nulInName || !created {
        return false;
      }
      threads := threads + 1;
      return true;
    }

    /** `SpdkThread::current` and `current_with_mempool_size` */
    method Current(rc: int, nulInName: bool, created: bool) returns (ok: bool)
      requires Valid(View())
      modifies this
      ensures Valid(View())
      ensures ok <==> (old(flag) || rc == 0) && !nulInName && created
      ensures threads == old(threads) + if ok then 1 else 0
      ensures View() == Apply(old(View()), Create(true, rc, nulInName, created))
    {
      StepValid(View(), Create(true, rc, nulInName, created));
      var ready := ThreadLibInit(rc);
      if !ready || nulInName || !created {
        return false;
      }
      threads := threads + 1;
      return true;
    }

    /** `Drop for SpdkThread`: `isExited(n)` is what SPDK answers after `n` polls, and some answer is
        yes. The thread is polled up to the first such answer and not once more. */
    method Drop(isExited: nat -> bool, ghost exit: nat) returns (polls: nat)
      requires Valid(View()) && threads > 0 && isExited(exit)
      modifies this
      ensures isExited(polls) && forall n :: 0 <= n < polls ==> !isExited(n)
      ensures Valid(View()) && View() == Apply(old(View()), DropThread)
    {
      StepValid(View(), DropThread);
      polls := 0;
      while !isExited(polls)
        invariant polls <= exit && forall n :: 0 <= n < polls ==> !isExited(n)
        invariant View() == old(View())
        decreases exit - polls
      {
        polls := polls + 1;
      }
      threads := threads - 1;
      if threads == 0 {
        ThreadLibFini();
      }
    }
  }
}
