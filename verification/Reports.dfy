/** What the seed tells the library, over every run: the reports that the runtime's record
    gives for the messages it has read are those the protocol puts into the inbox. */
module Reports {
  import opened Messages
  import opened Transducer
  import opened PullMachine
  import opened Seqs
  import opened Protocol
  import opened Isolation
  import opened Pairing
  import opened Returns
  import Completion
  import Conformance
  import Verdicts
  import R = Runtime

  /** The forks of a run: the n-th gave the n-th child's pid, and it exits as that child. */
  function WorldOf(kids: seq<Kid>): R.World {
    R.World(seq(|kids|, i requires 0 <= i < |kids| => kids[i].pid),
            seq(|kids|, i requires 0 <= i < |kids| => kids[i].status))
  }

  /** What a step of the seed puts into the inbox. */
  function Posted(s: Sys, st: Step): seq<Msg>
    requires Enabled(s, st)
  {
    var inbox := Apply(s, st).inbox;
    if (st.SeedReceive? || st.SeedReap?) && |s.inbox| <= |inbox| then inbox[|s.inbox|..] else []
  }

  function Posts(s: Sys, steps: seq<Step>): seq<Msg>
    requires Legal(s, steps)
    decreases |steps|
  {
    if steps == [] then [] else Posted(s, steps[0]) + Posts(Apply(s, steps[0]), steps[1..])
  }

  /** The exit code the seed still waits for. */
  function Outstanding(s: Sys): seq<Msg> {
    if s.waiting && s.kids != [] then [ExitCode(s.kids[|s.kids| - 1].status)] else []
  }

  // ----- what the runtime tells, when some processes change -----

  /** The worlds agree on the forks n to n + k, on pids and where asked on statuses. */
  predicate Agree(w: R.World, v: R.World, n: nat, k: nat, statuses: bool) {
    forall i :: n <= i < n + k ==> w.Pid(i) == v.Pid(i) && (statuses ==> w.Status(i) == v.Status(i))
  }

  lemma {:induction false} ToldSame(ms: seq<Msg>, first: bool, n: nat, w: R.World, v: R.World, mode: bool)
    requires Waits(ms, mode) && Agree(w, v, n, R.ForksIn(ms, first), mode)
    ensures R.Told(ms, first, n, w) == R.Told(ms, first, n, v)
    decreases |ms|
  {
    if ms == [] {
    } else {
      var k: nat := if !first && ms[0].Fork? then 1 else 0;
      assert R.ForksIn(ms, first) == k + R.ForksIn(ms[1..], false);
      assert w.Pid(n + 0) == v.Pid(n + 0) || k == 0;
      ToldSame(ms[1..], false, n + k, w, v, mode);
      hide R.World.Pid, R.World.Status;
    }
  }

  // ----- the invariant -----

  /** Children that count as ended: all of them when the seed waits for each, but the one
      it is waiting for. */
  predicate Ended(s: Sys) {
    forall i :: 0 <= i < |s.kids| ==> s.lib.exitCodeMode && !(s.waiting && i == |s.kids| - 1) ==> !s.kids[i].alive
  }

  /** What has been posted for the messages taken; while the seed waits, the last of them
      is the fork whose child it waits for. */
  ghost predicate Settled(s: Sys, posts: seq<Msg>) {
    var ms, n := s.hist.taken, |s.kids|;
    if !s.waiting then
      posts == R.Told(ms, true, 0, WorldOf(s.kids)) && R.ForksIn(ms, true) == n
    else
      && |ms| > 1 && n > 0 && ms[|ms| - 1] == Fork(true) && s.lib.exitCodeMode
      && posts == R.Told(ms[..|ms| - 1], true, 0, WorldOf(s.kids)) + [ForkReport(s.kids[n - 1].pid)]
      && R.ForksIn(ms[..|ms| - 1], true) == n - 1
  }

  ghost predicate Posting(s: Sys, posts: seq<Msg>) {
    && Waits(s.hist.toSeed, s.lib.exitCodeMode)
    && (forall i :: 0 <= i < |s.kids| ==> s.kids[i].pid > 0)
    && (s.hist.taken == [] <==> s.seed.rt.phase == WaitingForHeader)
    && Ended(s)
    && Settled(s, posts)
  }

  lemma TakenWaits(s: Sys)
    requires Inv(s) && Waits(s.hist.toSeed, s.lib.exitCodeMode)
    ensures Waits(s.hist.taken, s.lib.exitCodeMode)
    ensures s.seedPipe != [] && s.seedPipe[0].Fork? ==> s.seedPipe[0].waitForExitCode == s.lib.exitCodeMode
  {
    hide CallsSync, RoundsOk, InOrder, KidsSync, ReportsSync, PipeSync, Synced;
    var all, n := s.hist.toSeed, |s.hist.taken|;
    assert all == s.hist.taken + (s.seedPipe + s.seedOut);
    assert forall i :: 0 <= i < n ==> s.hist.taken[i] == all[i];
    assert s.seedPipe != [] ==> all[n] == s.seedPipe[0];
  }

  // ----- steps -----

  /** Steps that leave what was read and the children's ends alone. */
  lemma SamePosts(s: Sys, t: Sys, posts: seq<Msg>)
    requires Posting(s, posts) && t.lib.exitCodeMode == s.lib.exitCodeMode && t.waiting == s.waiting
    requires t.hist.taken == s.hist.taken
    requires t.seed.rt.phase == WaitingForHeader <==> s.seed.rt.phase == WaitingForHeader
    requires s.hist.toSeed <= t.hist.toSeed && Waits(t.hist.toSeed[|s.hist.toSeed|..], s.lib.exitCodeMode)
    requires |t.kids| == |s.kids| && forall i :: 0 <= i < |s.kids| ==>
               t.kids[i].pid == s.kids[i].pid && t.kids[i].status == s.kids[i].status
                   && t.kids[i].alive == s.kids[i].alive
    ensures Posting(t, posts)
  {
    hide R.Told, R.ForksIn;
    assert WorldOf(t.kids) == WorldOf(s.kids);
  }

  /** Which statuses have been told: none without waiting, and with it not the last's while
      the seed waits for it. */
  lemma ToldUnchanged(s: Sys, kids: seq<Kid>, i: nat, posts: seq<Msg>)
    requires Settled(s, posts) && Waits(s.hist.taken, s.lib.exitCodeMode) && |kids| == |s.kids| && i < |kids|
    requires forall j :: 0 <= j < |kids| ==>
               kids[j].pid == s.kids[j].pid && (j != i ==> kids[j].status == s.kids[j].status)
    requires s.lib.exitCodeMode ==> s.waiting && i == |kids| - 1
    ensures Settled(s.(kids := kids), posts)
  {
    var ms, mode := s.hist.taken, s.lib.exitCodeMode;
    var told := if s.waiting then ms[..|ms| - 1] else ms;
    var w, v := WorldOf(s.kids), WorldOf(kids);
    hide R.Told, R.ForksIn;
    assert Waits(told, mode);
    assert Agree(w, v, 0, R.ForksIn(told, true), mode);
    hide WorldOf, Agree, Waits;
    ToldSame(told, true, 0, w, v, mode);
  }

  /** A child that ends: the seed has not told its status yet, or never will. */
  lemma EndPosts(s: Sys, t: Sys, i: nat, posts: seq<Msg>)
    requires Posting(s, posts) && Waits(s.hist.taken, s.lib.exitCodeMode) && i < |s.kids| && s.kids[i].alive
    requires t.lib.exitCodeMode == s.lib.exitCodeMode && t.waiting == s.waiting && t.hist == s.hist && t.seed == s.seed
    requires |t.kids| == |s.kids| && t.kids[i].pid == s.kids[i].pid && !t.kids[i].alive
    requires forall j :: 0 <= j < |s.kids| && j != i ==> t.kids[j] == s.kids[j]
    ensures Posting(t, posts)
  {
    hide R.Told, R.ForksIn, Waits, WorldOf;
    assert Settled(s.(kids := t.kids), posts) by { hide *; EndedLast(s, i); ToldUnchanged(s, t.kids, i, posts); }
  }

  lemma EndedLast(s: Sys, i: nat)
    requires Ended(s) && i < |s.kids| && s.kids[i].alive
    ensures s.lib.exitCodeMode ==> s.waiting && i == |s.kids| - 1
  {
  }

  // ----- the messages the seed reads -----

  lemma {:induction false} AfterBoots(r: Rt, ms: seq<Msg>)
    requires r.phase != WaitingForHeader || (!Deaf(r) && ms != [])
    ensures After(r, ms).phase != WaitingForHeader
    decreases |ms|
  {
    if ms == [] {
    } else {
      ProcessBoots(r, ms[0]);
      hide Process;
      AfterBoots(Process(r, ms[0]).1, ms[1..]);
    }
  }

  lemma ProcessBoots(r: Rt, m: Msg)
    requires r.phase != WaitingForHeader || !Deaf(r)
    ensures Process(r, m).1.phase != WaitingForHeader
  {
    var q := Receive(r, m);
    SpinStep(q, m, 3);
    CallBoots(q, m);
    SpinBoots(StateCall(q, m), m, 2);
    hide StateCall, Spin;
  }

  /** The seed waits for its header exactly until it has read a message. */
  lemma Booting(p: Proc, c: seq<Msg>)
    requires Synced(p, c)
    ensures c == [] <==> p.rt.phase == WaitingForHeader
  {
    if c != [] {
      AfterBoots(BOOT, c);
    }
    hide Emit, Owed, Times;
  }

  lemma SeedBooting(s: Sys)
    requires Inv(s)
    ensures s.hist.taken == [] <==> s.seed.rt.phase == WaitingForHeader
  {
    hide CallsSync, RoundsOk, InOrder, KidsSync, ReportsSync, PipeSync, Synced;
    Booting(s.seed, s.hist.taken);
  }

  /** A message that is not a fork. */
  lemma PlainPosts(s: Sys, t: Sys, m: Msg, posts: seq<Msg>)
    requires Posting(s, posts) && !s.waiting && !t.waiting && !m.Fork?
    requires t.hist.taken == s.hist.taken + [m] && t.hist.toSeed == s.hist.toSeed && t.kids == s.kids
    requires t.lib.exitCodeMode == s.lib.exitCodeMode && t.seed.rt.phase != WaitingForHeader
    ensures Posting(t, posts + if s.seed.rt.phase == WaitingForHeader && m.Header? then [Started(API_VERSION)] else [])
  {
    var ms, w := s.hist.taken, WorldOf(s.kids);
    R.ToldConcat(ms, [m], true, 0, w);
    R.ToldOne(m, ms == [], R.ForksIn(ms, true), w);
    hide R.Told, R.ForksIn, Waits;
  }

  /** Forking before the new child's status matters. */
  lemma NewKid(kids: seq<Kid>, k: Kid)
    ensures var w, v := WorldOf(kids), WorldOf(kids + [k]);
            && Agree(w, v, 0, |kids|, true) && v.Pid(|kids|) == k.pid && v.Status(|kids|) == k.status
  {
  }

  lemma AgreeLess(w: R.World, v: R.World, n: nat, mode: bool)
    requires Agree(w, v, 0, n, true)
    ensures Agree(w, v, 0, n, mode)
  {
  }

  /** What is told before the new child, and with it. */
  lemma ToldFork(ms: seq<Msg>, kids: seq<Kid>, k: Kid, mode: bool)
    requires ms != [] && Waits(ms, mode) && R.ForksIn(ms, true) == |kids| && k.pid > 0
    ensures var v := WorldOf(kids + [k]);
            && R.Told(ms, true, 0, v) == R.Told(ms, true, 0, WorldOf(kids))
            && R.Told(ms + [Fork(mode)], true, 0, v) ==
                 R.Told(ms, true, 0, v) + R.ReportsOf(k.pid, mode, k.status)
            && R.ForksIn(ms + [Fork(mode)], true) == |kids| + 1
  {
    hide *;
    var w, v := WorldOf(kids), WorldOf(kids + [k]);
    NewKid(kids, k);
    AgreeLess(w, v, |kids|, mode);
    ToldSame(ms, true, 0, w, v, mode);
    R.ToldConcat(ms, [Fork(mode)], true, 0, v);
    R.ToldOne(Fork(mode), false, |kids|, v);
  }

  lemma ForkPosts(s: Sys, t: Sys, k: Kid, posts: seq<Msg>)
    requires Posting(s, posts) && !s.waiting && t.waiting == s.lib.exitCodeMode && s.hist.taken != []
    requires Waits(s.hist.taken, s.lib.exitCodeMode)
    requires t.hist.taken == s.hist.taken + [Fork(s.lib.exitCodeMode)] && t.hist.toSeed == s.hist.toSeed
    requires t.kids == s.kids + [k] && k.pid > 0
    requires t.lib.exitCodeMode == s.lib.exitCodeMode && t.seed.rt.phase != WaitingForHeader
    ensures Posting(t, posts + [ForkReport(k.pid)])
  {
    hide R.Told, R.ForksIn, Waits, WorldOf;
    var ms := s.hist.taken;
    ToldFork(ms, s.kids, k, s.lib.exitCodeMode);
    assert t.hist.taken[..|ms|] == ms;
  }

  /** While the seed waits, what it has read calls for one more message: the exit code. */
  lemma WaitTold(s: Sys, posts: seq<Msg>)
    requires Settled(s, posts) && s.waiting && s.kids[|s.kids| - 1].pid > 0
    ensures R.Told(s.hist.taken, true, 0, WorldOf(s.kids)) == posts + [ExitCode(s.kids[|s.kids| - 1].status)]
    ensures R.ForksIn(s.hist.taken, true) == |s.kids|
  {
    var ms, n, w := s.hist.taken, |s.kids|, WorldOf(s.kids);
    var front := ms[..|ms| - 1];
    assert ms == front + [Fork(true)];
    R.ToldConcat(front, [Fork(true)], true, 0, w);
    R.ToldOne(Fork(true), false, n - 1, w);
    assert w.Pid(n - 1) == s.kids[n - 1].pid && w.Status(n - 1) == s.kids[n - 1].status;
    hide R.Told, R.ForksIn, Waits, WorldOf, R.World.Pid, R.World.Status;
    Assoc(R.Told(front, true, 0, w), [ForkReport(s.kids[n - 1].pid)], [ExitCode(s.kids[n - 1].status)]);
  }

  lemma ReapPosts(s: Sys, t: Sys, posts: seq<Msg>)
    requires Posting(s, posts) && s.waiting && s.kids != [] && !s.kids[|s.kids| - 1].alive
    requires t.kids == s.kids && t.hist == s.hist && t.seed == s.seed && !t.waiting
    requires t.lib.exitCodeMode == s.lib.exitCodeMode
    ensures Posting(t, posts + [ExitCode(s.kids[|s.kids| - 1].status)])
  {
    hide R.Told, R.ForksIn, Waits, WorldOf;
    WaitTold(s, posts);
  }

  // ----- every step, every run -----

  /** The two cases of a message received, without the steps' own definitions. */
  lemma Received(s: Sys, pid: int)
    requires Enabled(s, SeedReceive(pid))
    ensures var t, m := Apply(s, SeedReceive(pid)), s.seedPipe[0];
            && pid > 0 && !s.waiting && t.seed.rt.phase != WaitingForHeader && t.hist.taken == s.hist.taken + [m]
            && t.hist.toSeed == s.hist.toSeed && t.lib == s.lib
            && (m.Fork? && Deliver(s.seed, m).rt.out == NeedMessage ==>
                  && t.kids == s.kids + [Kid(Deliver(s.seed, m), pid, true, 0, t.hist.taken, [], [])]
                  && Posted(s, SeedReceive(pid)) == [ForkReport(pid)] && t.waiting == m.waitForExitCode)
            && (!m.Fork? ==>
                  && t.kids == s.kids && !t.waiting
                  && Posted(s, SeedReceive(pid)) ==
                       if s.seed.rt.phase == WaitingForHeader && m.Header? then [Started(API_VERSION)] else [])
  {
    Verdicts.DeliverBoots(s.seed, s.seedPipe[0]);
    hide Deliver;
  }

  lemma ReceivePosts(s: Sys, pid: int, posts: seq<Msg>)
    requires Enabled(s, SeedReceive(pid)) && Posting(s, posts) && Waits(s.hist.taken, s.lib.exitCodeMode)
    requires s.seedPipe[0].Fork? ==>
               s.seedPipe[0].waitForExitCode == s.lib.exitCodeMode && s.hist.taken != []
                   && Deliver(s.seed, s.seedPipe[0]).rt.out == NeedMessage
    ensures Posting(Apply(s, SeedReceive(pid)), posts + Posted(s, SeedReceive(pid)))
  {
    var t, m := Apply(s, SeedReceive(pid)), s.seedPipe[0];
    Received(s, pid);
    hide *;
    if m.Fork? {
      ForkPosts(s, t, t.kids[|s.kids|], posts);
    } else {
      PlainPosts(s, t, m, posts);
    }
  }

  /** The seed that reads a fork has read the header before. */
  lemma ForkComesLater(s: Sys)
    requires Inv(s) && s.seedPipe != [] && s.seedPipe[0].Fork?
    ensures s.hist.taken != []
  {
    hide RoundsOk, InOrder, KidsSync, ReportsSync, PipeSync, Synced;
  }

  /** Writing to the seed. */
  lemma WritePosts(s: Sys, st: Step, posts: seq<Msg>)
    requires Enabled(s, st) && Posting(s, posts) && (st.Quantify? || st.Add? || st.SendFork?)
    ensures Posting(Apply(s, st), posts)
  {
    var t, n := Apply(s, st), |s.hist.toSeed|;
    hide Posting, Sent, Enabled;
    assert s.hist.toSeed <= t.hist.toSeed && |t.hist.toSeed| == n + 1;
    assert t.hist.toSeed[n].Fork? ==> t.hist.toSeed[n].waitForExitCode == s.lib.exitCodeMode;
    SamePosts(s, t, posts);
  }

  /** The same read, written and waited for, and children with the same ends. */
  predicate Alike(s: Sys, t: Sys) {
    && t.lib.exitCodeMode == s.lib.exitCodeMode && t.waiting == s.waiting
    && t.hist.taken == s.hist.taken && t.hist.toSeed == s.hist.toSeed && |t.kids| == |s.kids|
    && forall i :: 0 <= i < |s.kids| ==>
         t.kids[i].pid == s.kids[i].pid && t.kids[i].status == s.kids[i].status && t.kids[i].alive == s.kids[i].alive
  }

  lemma KidsAlike(s: Sys, st: Step)
    requires Enabled(s, st) && (st.KidRead? || st.KidFetch? || st.KidReceive?)
    ensures Alike(s, Apply(s, st))
  {
    hide Deliver, BeginRead;
  }

  lemma OthersAlike(s: Sys, st: Step)
    requires Enabled(s, st) && !st.SeedReceive? && !st.SeedReap? && !st.KidExit? && !st.HandleAbort?
    requires !st.ResetAssumptions? && !st.Quantify? && !st.Add? && !st.SendFork?
    requires !st.KidRead? && !st.KidFetch? && !st.KidReceive?
    ensures Alike(s, Apply(s, st))
  {
    hide BeginRead;
  }

  /** Steps that are neither the seed's receiving nor the end of a child. */
  lemma OtherPosts(s: Sys, st: Step, posts: seq<Msg>)
    requires Enabled(s, st) && Posting(s, posts) && !st.SeedReceive? && !st.SeedReap? && !st.KidExit?
    requires !st.HandleAbort? && !st.ResetAssumptions? && !st.Quantify? && !st.Add? && !st.SendFork?
    requires Apply(s, st).hist.taken == [] <==> Apply(s, st).seed.rt.phase == WaitingForHeader
    ensures Posting(Apply(s, st), posts)
  {
    hide *;
    if st.KidRead? || st.KidFetch? || st.KidReceive? { KidsAlike(s, st); } else { OthersAlike(s, st); }
    AlikePosts(s, Apply(s, st), posts);
  }

  lemma AlikePosts(s: Sys, t: Sys, posts: seq<Msg>)
    requires Alike(s, t) && Posting(s, posts)
    requires t.hist.taken == [] <==> t.seed.rt.phase == WaitingForHeader
    ensures Posting(t, posts)
  {
    PostingBoots(s, posts);
    hide Posting, Waits;
    NoWaits(t.hist.toSeed);
    SamePosts(s, t, posts);
  }

  lemma NothingPosted(s: Sys, st: Step)
    requires Enabled(s, st) && !st.SeedReceive? && !st.SeedReap?
    ensures Posted(s, st) == []
  {
    hide Apply, Enabled;
  }

  lemma PostingBoots(s: Sys, posts: seq<Msg>)
    requires Posting(s, posts)
    ensures s.hist.taken == [] <==> s.seed.rt.phase == WaitingForHeader
    ensures Waits(s.hist.toSeed, s.lib.exitCodeMode)
  {
    hide Settled, Ended, Waits;
  }

  /** The end of a child by itself, or by SIGKILL. */
  lemma KilledPosts(s: Sys, st: Step, posts: seq<Msg>)
    requires Enabled(s, st) && Posting(s, posts) && Waits(s.hist.taken, s.lib.exitCodeMode)
    requires st.KidExit? || st.HandleAbort? || st.ResetAssumptions?
    ensures Posting(Apply(s, st), posts)
  {
    var t, n := Apply(s, st), |s.kids|;
    hide Posting, Waits, Enabled;
    NoWaits(s.hist.toSeed);
    if st.KidExit? {
      EndPosts(s, t, st.i, posts);
    } else if n > 0 && s.kids[n - 1].alive {
      EndPosts(s, t, n - 1, posts);
    } else {
      SamePosts(s, t, posts);
    }
  }

  lemma NoWaits(ms: seq<Msg>)
    ensures forall mode :: Waits(ms[|ms|..], mode)
  {
  }

  lemma ReapedPosts(s: Sys, posts: seq<Msg>)
    requires Enabled(s, SeedReap) && Posting(s, posts)
    ensures Posting(Apply(s, SeedReap), posts + Posted(s, SeedReap))
  {
    hide Posting;
    ReapPosts(s, Apply(s, SeedReap), posts);
  }

  lemma StepPosts(s: Sys, st: Step, posts: seq<Msg>)
    requires Enabled(s, st) && Inv(s) && Posting(s, posts)
    ensures Inv(Apply(s, st)) && Posting(Apply(s, st), posts + Posted(s, st))
  {
    hide *;
    NilRight(posts);
    PostingBoots(s, posts);
    TakenWaits(s);
    StepKeeps(s, st);
    SeedBooting(Apply(s, st));
    if st.SeedReceive? {
      CanReceive(s, st.pid);
      if s.seedPipe[0].Fork? {
        ForkFacts(s, st.pid);
        ForkComesLater(s);
      }
      ReceivePosts(s, st.pid, posts);
    } else if st.SeedReap? {
      ReapedPosts(s, posts);
    } else {
      NothingPosted(s, st);
      if st.KidExit? || st.HandleAbort? || st.ResetAssumptions? {
        KilledPosts(s, st, posts);
      } else if st.Quantify? || st.Add? || st.SendFork? {
        WritePosts(s, st, posts);
      } else {
        OtherPosts(s, st, posts);
      }
    }
  }

  lemma {:induction false} RunPosts(s: Sys, steps: seq<Step>, posts: seq<Msg>)
    requires Legal(s, steps) && Inv(s) && Posting(s, posts)
    ensures Posting(Final(s, steps), posts + Posts(s, steps))
    decreases |steps|
  {
    hide Inv, Posting, Enabled, Apply, Posted;
    if steps == [] {
      NilRight(posts);
    } else {
      StepPosts(s, steps[0], posts);
      RunPosts(Apply(s, steps[0]), steps[1..], posts + Posted(s, steps[0]));
      Assoc(posts, Posted(s, steps[0]), Posts(Apply(s, steps[0]), steps[1..]));
    }
  }

  lemma InitPosts(h: HeaderData, exitCodeMode: bool, callback: bool)
    ensures Posting(Init(h, exitCodeMode, callback), [])
  {
  }

  /** What was posted, and what is still to come. */
  lemma PostsTold(s: Sys, posts: seq<Msg>)
    requires Posting(s, posts)
    ensures R.Told(s.hist.taken, true, 0, WorldOf(s.kids)) == posts + Outstanding(s)
    ensures R.ForksIn(s.hist.taken, true) == |s.kids|
  {
    hide Ended, Waits, R.Told, R.ForksIn, WorldOf;
    NilRight(posts);
    if s.waiting {
      WaitTold(s, posts);
    }
  }

  /** The seed's reports, over every run and every interleaving: what it has put into the
      inbox, with the exit code it is waiting for, is what the runtime's record tells the
      library for the messages read; and it has forked once for each child. */
  lemma SeedReports(h: HeaderData, exitCodeMode: bool, callback: bool, steps: seq<Step>)
    requires Legal(Init(h, exitCodeMode, callback), steps)
    ensures var s := Final(Init(h, exitCodeMode, callback), steps);
            && R.Told(s.hist.taken, true, 0, WorldOf(s.kids)) ==
                 Posts(Init(h, exitCodeMode, callback), steps) + Outstanding(s)
            && R.ForksIn(s.hist.taken, true) == |s.kids|
  {
    hide *;
    var init := Init(h, exitCodeMode, callback);
    InitKeeps(h, exitCodeMode, callback);
    InitPosts(h, exitCodeMode, callback);
    RunPosts(init, steps, []);
    NilLeft(Posts(init, steps));
    PostsTold(Final(init, steps), Posts(init, steps));
  }

  // ----- without exit codes -----

  /** Without exit codes none is ever on its way. */
  ghost predicate Codeless(s: Sys) {
    !s.lib.exitCodeMode && !s.waiting && forall i :: 0 <= i < |s.inbox| ==> !s.inbox[i].ExitCode?
  }

  lemma CodelessStep(s: Sys, st: Step, posts: seq<Msg>)
    requires Enabled(s, st) && Codeless(s) && Posting(Apply(s, st), posts)
    ensures Codeless(Apply(s, st))
  {
    NeverWaits(Apply(s, st), posts);
    hide Posting, Deliver, BeginRead, Sent;
    if st.SeedReceive? {
      CodelessReceive(s, st.pid);
    } else if st.KidRead? || st.KidFetch? || st.KidReceive? || st.KidExit? {
      CodelessKid(s, st);
    }
  }

  lemma NeverWaits(s: Sys, posts: seq<Msg>)
    requires Posting(s, posts) && !s.lib.exitCodeMode
    ensures !s.waiting
  {
    hide R.Told, R.ForksIn, WorldOf, Waits, Ended;
  }

  lemma CodelessReceive(s: Sys, pid: int)
    requires Enabled(s, SeedReceive(pid)) && Codeless(s) && !Apply(s, SeedReceive(pid)).waiting
    ensures Codeless(Apply(s, SeedReceive(pid)))
  {
    hide Deliver;
  }

  lemma CodelessKid(s: Sys, st: Step)
    requires Enabled(s, st) && Codeless(s) && (st.KidRead? || st.KidFetch? || st.KidReceive? || st.KidExit?)
    ensures Codeless(Apply(s, st))
  {
    hide Deliver, BeginRead;
  }

  lemma {:induction false} CodelessRun(s: Sys, steps: seq<Step>, posts: seq<Msg>)
    requires Legal(s, steps) && Inv(s) && Posting(s, posts) && Codeless(s)
    ensures Codeless(Final(s, steps))
    decreases |steps|
  {
    hide Inv, Posting, Codeless, Enabled, Apply, Posted;
    if steps != [] {
      StepPosts(s, steps[0], posts);
      StaysCodeless(s, steps[0], posts + Posted(s, steps[0]));
      CodelessRun(Apply(s, steps[0]), steps[1..], posts + Posted(s, steps[0]));
    }
  }

  lemma StaysCodeless(s: Sys, st: Step, posts: seq<Msg>)
    requires Enabled(s, st) && Codeless(s) && Posting(Apply(s, st), posts)
    ensures Codeless(Apply(s, st))
  {
    hide *;
    CodelessStep(s, st, posts);
  }

  lemma EndTold(s: Sys, status: int)
    requires Codeless(s) && s.stage == Solving && s.kids != [] && s.kids[|s.kids| - 1].alive
    ensures var st := KidExit(|s.kids| - 1, status);
            && Enabled(s, st) && Returned(s, st) == []
            && var t := Apply(s, st);
               t.stage == Solving && t.callback == s.callback && t.inbox == s.inbox + [Destructed]
  {
  }

  lemma WaitOver(t: Sys)
    requires t.stage == Solving && t.inbox != [] && !t.inbox[0].ExitCode?
    ensures Enabled(t, HandleChild) && Returned(t, HandleChild) == [0] && Apply(t, HandleChild).stage == Calling
  {
  }

  lemma EndsNow(s: Sys, status: int)
    requires Codeless(s) && s.stage == Solving && s.kids != [] && s.kids[|s.kids| - 1].alive
    ensures var more := [KidExit(|s.kids| - 1, status), HandleChild];
            Legal(s, more) && Results(s, more) == [0] && Final(s, more).stage == Calling
  {
    EndTold(s, status);
    var st := KidExit(|s.kids| - 1, status);
    var t := Apply(s, st);
    assert !t.inbox[0].ExitCode?;
    hide *;
    WaitOver(t);
    Conformance.OneStep(t, HandleChild);
    Verdicts.PrependResult(s, st, [HandleChild]);
    NilLeft(Results(t, [HandleChild]));
    assert [st] + [HandleChild] == [st, HandleChild];
  }

  lemma InitCodeless(h: HeaderData, callback: bool)
    ensures Codeless(Init(h, false, callback))
  {
  }

  /** With patterns set instead, over every run: when the child of the round ends before its
      output has decided, quapi_solve hears of it and returns 0, whatever the status. */
  lemma EndWithoutVerdict(h: HeaderData, callback: bool, steps: seq<Step>, status: int)
    requires Legal(Init(h, false, callback), steps)
    requires var s := Final(Init(h, false, callback), steps);
             s.stage == Solving && s.kids != [] && s.kids[|s.kids| - 1].alive
    ensures var init := Init(h, false, callback);
            var more := [KidExit(|Final(init, steps).kids| - 1, status), HandleChild];
            && Legal(init, steps + more) && Results(init, steps + more) == Results(init, steps) + [0]
            && Final(init, steps + more).stage == Calling
  {
    hide *;
    var init := Init(h, false, callback);
    var s := Final(init, steps);
    InitKeeps(h, false, callback);
    InitPosts(h, false, callback);
    InitCodeless(h, callback);
    CodelessRun(init, steps, []);
    EndsNow(s, status);
    var more := [KidExit(|s.kids| - 1, status), HandleChild];
    Completion.Append(init, steps, more);
    Verdicts.ResultsAppend(init, steps, more);
  }
}
