// The DMA channel locks of driver/dmalock.c. Taking a channel passes the semaphore, scans for an
// unused channel under the mutex, and marks and names it; releasing one clears its name, unmarks it
// and posts the semaphore, without the mutex. Every access to shared data is a step of its own.
module DmaChannels {
  import opened Options

  type Taker = nat

  const COUNT: nat := 6                          // DMAC_CHANNEL_COUNT

  datatype Phase =
    | Waiting                          // in rt_sem_take
    | Granted                          // past the semaphore
    | Scanning(i: nat)                 // holds the mutex, about to test channel i
    | Marked(i: nat)                   // holds the mutex, has set channel_used
    | Named(i: nat)                    // holds the mutex, has set channel_name too
    | Holds(i: nat)
    | Unnamed(i: nat)                  // releasing: channel_name cleared
    | Unmarked(i: nat)                 // releasing: channel_used cleared, semaphore not yet posted

  datatype Host = Host(
    used: seq<bool>,                   // channel_used
    name: seq<Option<Taker>>,          // channel_name, as whose name it is
    value: nat,                        // the semaphore's count
    mutex: Option<Taker>,
    phase: map<Taker, Phase>)

  datatype Event =
    | Take(t: Taker)                   // reaches rt_sem_take
    | GiveUp(t: Taker)                 // ... and leaves it by timeout
    | Pass(t: Taker)                   // ... or finds the count positive
    | Lock(t: Taker)
    | Test(t: Taker)                   // tests one channel, and marks it if it is unused
    | Name(t: Taker)
    | Unlock(t: Taker)
    | ClearName(t: Taker)
    | ClearUsed(t: Taker)
    | Post(t: Taker, to: Option<Taker>) // rt_sem_release: to a waiter if there is one

  ghost predicate In(s: Host, t: Taker, p: Phase) {
    t in s.phase && s.phase[t] == p
  }

  // Only a holder releases. A scan that is past the last channel has nothing to do.
  ghost predicate CanHappen(s: Host, e: Event) {
    match e
    case Take(t) => t !in s.phase
    case GiveUp(t) => In(s, t, Waiting)
    case Pass(t) => In(s, t, Waiting) && s.value > 0
    case Lock(t) => In(s, t, Granted) && s.mutex == None
    case Test(t) => t in s.phase && s.phase[t].Scanning? && s.phase[t].i < COUNT
    case Name(t) => t in s.phase && s.phase[t].Marked?
    case Unlock(t) => t in s.phase && s.phase[t].Named?
    case ClearName(t) => t in s.phase && s.phase[t].Holds?
    case ClearUsed(t) => t in s.phase && s.phase[t].Unnamed?
    case Post(t, to) =>
      && t in s.phase && s.phase[t].Unmarked?
      && (if to.Some? then In(s, to.value, Waiting) else forall x :: x in s.phase ==> !s.phase[x].Waiting?)
  }

  ghost predicate Shaped(s: Host) {
    && |s.used| == COUNT && |s.name| == COUNT
    && forall t :: t in s.phase ==> ChannelOk(s.phase[t])
  }

  predicate ChannelOk(p: Phase) {
    match p
    case Waiting => true
    case Granted => true
    case Scanning(i) => i <= COUNT
    case _ => p.i < COUNT
  }

  function Step(s: Host, e: Event): Host
    requires Shaped(s) && CanHappen(s, e)
  {
    match e
    case Take(t) => s.(phase := s.phase[t := Waiting])
    case GiveUp(t) => s.(phase := s.phase - {t})
    case Pass(t) => s.(value := s.value - 1, phase := s.phase[t := Granted])
    case Lock(t) => s.(mutex := Some(t), phase := s.phase[t := Scanning(0)])
    case Test(t) =>
      var i := s.phase[t].i;
      if s.used[i] then s.(phase := s.phase[t := Scanning(i + 1)])
      else s.(used := s.used[i := true], phase := s.phase[t := Marked(i)])
    case Name(t) => s.(name := s.name[s.phase[t].i := Some(t)], phase := s.phase[t := Named(s.phase[t].i)])
    case Unlock(t) => s.(mutex := None, phase := s.phase[t := Holds(s.phase[t].i)])
    case ClearName(t) => s.(name := s.name[s.phase[t].i := None], phase := s.phase[t := Unnamed(s.phase[t].i)])
    case ClearUsed(t) => s.(used := s.used[s.phase[t].i := false], phase := s.phase[t := Unmarked(s.phase[t].i)])
    case Post(t, to) =>
      var u := s.(phase := s.phase - {t});
      if to.Some? then u.(phase := u.phase[to.value := Granted]) else u.(value := u.value + 1)
  }

  // ---- what every step keeps ----

  function Free(s: Host): set<nat> {
    Unused(s.used)
  }

  function Seeking(phase: map<Taker, Phase>): set<Taker> {
    set t | t in phase && (phase[t].Granted? || phase[t].Scanning?)
  }

  function Leaving(phase: map<Taker, Phase>): set<Taker> {
    set t | t in phase && phase[t].Unmarked?
  }

  function Seeks(phase: map<Taker, Phase>, t: Taker): int {
    if t in phase && (phase[t].Granted? || phase[t].Scanning?) then 1 else 0
  }

  function Leaves(phase: map<Taker, Phase>, t: Taker): int {
    if t in phase && phase[t].Unmarked? then 1 else 0
  }

  lemma SeekCount(phase: map<Taker, Phase>, n: map<Taker, Phase>, t: Taker)
    requires n - {t} == phase - {t}
    ensures |Seeking(n)| == |Seeking(phase)| - Seeks(phase, t) + Seeks(n, t)
  {
    forall x | x != t ensures x in Seeking(n) <==> x in Seeking(phase) { Others(phase, n, t, x); }
    assert Seeking(n) - {t} == Seeking(phase) - {t};
    Without(Seeking(n), t);
    Without(Seeking(phase), t);
  }

  lemma LeaveCount(phase: map<Taker, Phase>, n: map<Taker, Phase>, t: Taker)
    requires n - {t} == phase - {t}
    ensures |Leaving(n)| == |Leaving(phase)| - Leaves(phase, t) + Leaves(n, t)
  {
    forall x | x != t ensures x in Leaving(n) <==> x in Leaving(phase) { Others(phase, n, t, x); }
    assert Leaving(n) - {t} == Leaving(phase) - {t};
    Without(Leaving(n), t);
    Without(Leaving(phase), t);
  }

  lemma Others(phase: map<Taker, Phase>, n: map<Taker, Phase>, t: Taker, x: Taker)
    requires n - {t} == phase - {t} && x != t
    ensures x in n <==> x in phase
    ensures x in n ==> n[x] == phase[x]
  {
    assert x in n <==> x in n - {t};
    assert x in phase <==> x in phase - {t};
    if x in n { assert n[x] == (n - {t})[x] && phase[x] == (phase - {t})[x]; }
  }

  lemma Without(xs: set<nat>, x: nat)
    ensures |xs - {x}| == |xs| - (if x in xs then 1 else 0)
  {
    if x !in xs { assert xs - {x} == xs; }
  }

  function Unused(used: seq<bool>): set<nat> {
    set i | 0 <= i < |used| && !used[i]
  }

  lemma UsedCount(used: seq<bool>, i: nat, v: bool)
    requires i < |used|
    ensures |Unused(used[i := v])| == |Unused(used)| - (if used[i] then 0 else 1) + (if v then 0 else 1)
  {
    assert Unused(used[i := v]) - {i} == Unused(used) - {i};
    Without(Unused(used[i := v]), i);
    Without(Unused(used), i);
  }

  // Takers past the semaphore that have not marked a channel yet.
  function Seekers(s: Host): set<Taker> {
    Seeking(s.phase)
  }

  // Releasers that have unmarked their channel but not posted the semaphore yet.
  function Leavers(s: Host): set<Taker> {
    Leaving(s.phase)
  }

  predicate Owning(p: Phase) {
    p.Marked? || p.Named? || p.Holds? || p.Unnamed?
  }

  predicate Locking(p: Phase) {
    p.Scanning? || p.Marked? || p.Named?
  }

  ghost predicate OwnerOk(s: Host, t: Taker) {
    t in s.phase && Owning(s.phase[t]) ==>
      && s.phase[t].i < |s.used| == |s.name| && s.used[s.phase[t].i]
      && (s.phase[t].Named? || s.phase[t].Holds? ==> s.name[s.phase[t].i] == Some(t))
  }

  ghost predicate Apart(s: Host, t: Taker, u: Taker) {
    t in s.phase && u in s.phase && t != u && Owning(s.phase[t]) && Owning(s.phase[u]) ==> s.phase[t].i != s.phase[u].i
  }

  ghost predicate LockOk(s: Host, t: Taker) {
    t in s.phase && Locking(s.phase[t]) <==> s.mutex == Some(t)
  }

  // A scan has an unused channel still ahead of it.
  ghost predicate ScanOk(s: Host, t: Taker) {
    t in s.phase && s.phase[t].Scanning? ==> exists j :: s.phase[t].i <= j && j in Free(s)
  }

  ghost predicate Counted(s: Host) {
    |Free(s)| == s.value + |Seekers(s)| + |Leavers(s)|
  }

  ghost predicate Valid(s: Host) {
    && Shaped(s)
    && Counted(s)
    && (forall t :: OwnerOk(s, t))
    && (forall t, u :: Apart(s, t, u))
    && (forall t :: LockOk(s, t))
    && (forall t :: ScanOk(s, t))
  }

  function Initial(): Host {
    Host(seq(COUNT, _ => false), seq(COUNT, _ => None), COUNT, None, map[])
  }

  lemma InitialValid()
    ensures Valid(Initial())
  {
    var s := Initial();
    assert Free(s) == {0, 1, 2, 3, 4, 5};
    assert Seekers(s) == {} && Leavers(s) == {};
  }

  // Taker t alone changes its phase.
  lemma OneMoves(s: Host, n: Host, t: Taker)
    requires n.phase - {t} == s.phase - {t}
    ensures |Seekers(n)| == |Seekers(s)| - Seeks(s.phase, t) + Seeks(n.phase, t)
    ensures |Leavers(n)| == |Leavers(s)| - Leaves(s.phase, t) + Leaves(n.phase, t)
  {
    SeekCount(s.phase, n.phase, t);
    LeaveCount(s.phase, n.phase, t);
  }

  lemma PostCounts(s: Host, t: Taker, to: Option<Taker>)
    requires Valid(s) && CanHappen(s, Post(t, to))
    ensures Counted(Step(s, Post(t, to)))
  {
    var u := s.(phase := s.phase - {t});
    assert u.phase - {t} == s.phase - {t};
    OneMoves(s, u, t);
    if to.Some? {
      var n := Step(s, Post(t, to));
      assert n.phase - {to.value} == u.phase - {to.value};
      OneMoves(u, n, to.value);
    }
  }

  lemma CountStays(s: Host, e: Event)
    requires Valid(s) && CanHappen(s, e)
    ensures Counted(Step(s, e))
  {
    var n := Step(s, e);
    if e.Post? {
      PostCounts(s, e.t, e.to);
    } else {
      assert n.phase - {e.t} == s.phase - {e.t};
      OneMoves(s, n, e.t);
      match e {
        case Test(t) => UsedCount(s.used, s.phase[t].i, true);
        case ClearUsed(t) =>
          assert OwnerOk(s, t);
          UsedCount(s.used, s.phase[t].i, false);
        case _ =>
      }
    }
  }

  lemma OwnersStay(s: Host, e: Event)
    requires Valid(s) && CanHappen(s, e)
    ensures var n := Step(s, e); Shaped(n) && (forall t :: OwnerOk(n, t)) && (forall t, u :: Apart(n, t, u))
  {
    var n := Step(s, e);
    forall t ensures OwnerOk(n, t) { assert OwnerOk(s, t) && OwnerOk(s, e.t) && Apart(s, t, e.t); }
    forall t, u ensures Apart(n, t, u) { assert Apart(s, t, u) && OwnerOk(s, t) && OwnerOk(s, u); }
  }

  lemma LocksStay(s: Host, e: Event)
    requires Valid(s) && CanHappen(s, e)
    ensures var n := Step(s, e); forall t :: LockOk(n, t)
  {
    var n := Step(s, e);
    forall t ensures LockOk(n, t) { assert LockOk(s, t) && LockOk(s, e.t); }
  }

  lemma ScansStay(s: Host, e: Event)
    requires Valid(s) && CanHappen(s, e)
    ensures var n := Step(s, e); forall t :: ScanOk(n, t)
  {
    var n := Step(s, e);
    forall t ensures ScanOk(n, t) {
      assert ScanOk(s, t) && LockOk(s, t) && LockOk(s, e.t);
      if t in n.phase && n.phase[t].Scanning? {
        if e.Lock? && e.t == t {
          assert t in Seekers(s);
          assert |Free(s)| > 0;
          var j :| j in Free(s);
          assert j in Free(n);
        } else {
          var j :| s.phase[t].i <= j && j in Free(s);
          assert j in Free(n);
        }
      }
    }
  }

  lemma StaysValid(s: Host, e: Event)
    requires Valid(s) && CanHappen(s, e)
    ensures Valid(Step(s, e))
  {
    CountStays(s, e);
    OwnersStay(s, e);
    LocksStay(s, e);
    ScansStay(s, e);
  }

  ghost predicate CanRun(s: Host, es: seq<Event>)
    decreases |es|
  {
    es == [] || (Shaped(s) && CanHappen(s, es[0]) && CanRun(Step(s, es[0]), es[1..]))
  }

  function Run(s: Host, es: seq<Event>): Host
    requires CanRun(s, es)
    decreases |es|
  {
    if es == [] then s else Run(Step(s, es[0]), es[1..])
  }

  lemma {:induction false} AlwaysValid(s: Host, es: seq<Event>)
    requires Valid(s) && CanRun(s, es)
    ensures Valid(Run(s, es))
    decreases |es|
  {
    if es != [] {
      StaysValid(s, es[0]);
      AlwaysValid(Step(s, es[0]), es[1..]);
    }
  }

  // However takers and releasers interleave: a taker past the semaphore never scans to the end
  // without a channel, and no two hold the same one.
  lemma TakersFindChannels(es: seq<Event>, t: Taker, u: Taker)
    requires CanRun(Initial(), es)
    ensures
      var s := Run(Initial(), es);
      && (t in s.phase && s.phase[t].Scanning? ==> s.phase[t].i < COUNT)
      && (t in s.phase && u in s.phase && s.phase[t].Holds? && s.phase[u].Holds? ==>
            (s.phase[t].i == s.phase[u].i ==> t == u))
      && (t in s.phase && s.phase[t].Holds? ==> s.phase[t].i < |s.name| && s.name[s.phase[t].i] == Some(t))
  {
    InitialValid();
    AlwaysValid(Initial(), es);
    var s := Run(Initial(), es);
    assert ScanOk(s, t) && Apart(s, t, u) && OwnerOk(s, t);
  }

  // ---- in place ----

  // The first unused channel from i on.
  function FirstUnused(used: seq<bool>, i: nat): nat
    requires i <= |used|
    decreases |used| - i
  {
    if i == |used| || !used[i] then i else FirstUnused(used, i + 1)
  }

  lemma {:induction false} FirstUnusedIsFirst(used: seq<bool>, i: nat)
    requires i <= |used|
    ensures i <= FirstUnused(used, i) <= |used|
    ensures FirstUnused(used, i) < |used| ==> !used[FirstUnused(used, i)]
    ensures forall j :: i <= j < FirstUnused(used, i) ==> used[j]
    decreases |used| - i
  {
    if i < |used| && used[i] { FirstUnusedIsFirst(used, i + 1); }
  }

  // A scan that nothing interrupts, step by step.
  function ScanOut(s: Host, t: Taker): Host
    requires Shaped(s) && t in s.phase && s.phase[t].Scanning?
    decreases COUNT - s.phase[t].i
  {
    if s.phase[t].i == COUNT then s
    else
      var n := Step(s, Test(t));
      if n.phase[t].Marked? then n else ScanOut(n, t)
  }

  // It marks the first unused channel, as the loop below does.
  lemma {:induction false} ScanOutMarks(s: Host, t: Taker)
    requires Valid(s) && t in s.phase && s.phase[t].Scanning?
    ensures
      var chn := FirstUnused(s.used, s.phase[t].i);
      chn < COUNT && ScanOut(s, t) == s.(used := s.used[chn := true], phase := s.phase[t := Marked(chn)])
    decreases COUNT - s.phase[t].i
  {
    assert ScanOk(s, t);
    var n := Step(s, Test(t));
    if n.phase[t].Scanning? {
      StaysValid(s, Test(t));
      ScanOutMarks(n, t);
      var chn := FirstUnused(s.used, s.phase[t].i);
      assert n.phase[t := Marked(chn)] == s.phase[t := Marked(chn)];
    }
  }

  // A release up to rt_sem_release, step by step.
  function ReleaseOut(s: Host, t: Taker): Host
    requires Shaped(s) && t in s.phase && s.phase[t].Holds?
  {
    Step(Step(s, ClearName(t)), ClearUsed(t))
  }

  // A channel taken and released again is as it was, but for the name an unused one had.
  lemma ReleaseUndoesTake(s: Host, t: Taker)
    requires Valid(s) && t in s.phase && s.phase[t].Scanning?
    ensures
      var n := ScanOut(s, t);
      && Shaped(n) && t in n.phase && n.phase[t].Marked?
      && var m := Step(Step(n, Name(t)), Unlock(t));
      && Shaped(m) && t in m.phase && m.phase[t].Holds?
      && ReleaseOut(m, t).used == s.used
      && ReleaseOut(m, t).name == s.name[m.phase[t].i := None]
  {
    ScanOutMarks(s, t);
    FirstUnusedIsFirst(s.used, s.phase[t].i);
  }

  class DmacHost {
    const channelUsed: array<bool>
    const channelName: array<Option<Taker>>

    ghost predicate Sized() {
      channelUsed.Length == COUNT && channelName.Length == COUNT
    }

    // The arrays are those of state s.
    ghost predicate Shows(s: Host)
      reads channelUsed, channelName
    {
      Sized() && channelUsed[..] == s.used && channelName[..] == s.name
    }

    // dmalock_init
    constructor ()
      ensures Shows(Initial()) && fresh(channelUsed) && fresh(channelName)
    {
      channelUsed := new bool[COUNT](_ => false);
      channelName := new Option<Taker>[COUNT](_ => None);
    }

    // The scan of _dmalock_sync_take by thread t, when nothing interferes: its steps up to the naming.
    // COUNT stands for DMAC_CHANNEL_MAX.
    method Scan(t: Taker, ghost s: Host) returns (chn: nat)
      requires Shows(s)
      modifies channelUsed, channelName
      ensures chn == FirstUnused(old(channelUsed[..]), 0) <= COUNT
      ensures channelUsed[..] == if chn < COUNT then old(channelUsed[..])[chn := true] else old(channelUsed[..])
      ensures channelName[..] == if chn < COUNT then old(channelName[..])[chn := Some(t)] else old(channelName[..])
      ensures Valid(s) && In(s, t, Scanning(0)) ==>
        var n := ScanOut(s, t);
        Shaped(n) && In(n, t, Marked(chn)) && Shows(Step(n, Name(t)))
    {
      FirstUnusedIsFirst(channelUsed[..], 0);
      if Valid(s) && In(s, t, Scanning(0)) { ScanOutMarks(s, t); }
      chn := COUNT;
      var i := 0;
      while i < COUNT
        invariant i <= COUNT && chn == COUNT
        invariant FirstUnused(old(channelUsed[..]), 0) == FirstUnused(old(channelUsed[..]), i)
        invariant channelUsed[..] == old(channelUsed[..]) && channelName[..] == old(channelName[..])
      {
        assert channelUsed[..][i] == channelUsed[i];
        if !channelUsed[i] {
          channelUsed[i] := true;
          channelName[i] := Some(t);
          chn := i;
          break;
        }
        i := i + 1;
      }
    }

    // dmalock_release, up to rt_sem_release: the two steps of a holder t. False when the channel
    // number is out of range.
    method Release(chn: nat, ghost t: Taker, ghost s: Host) returns (post: bool)
      requires Shows(s)
      modifies channelUsed, channelName
      ensures post <==> chn < COUNT
      ensures channelUsed[..] == if post then old(channelUsed[..])[chn := false] else old(channelUsed[..])
      ensures channelName[..] == if post then old(channelName[..])[chn := None] else old(channelName[..])
      ensures Shaped(s) && In(s, t, Holds(chn)) ==> post && Shows(ReleaseOut(s, t))
    {
      if chn >= COUNT {
        return false;
      }
      channelName[chn] := None;
      channelUsed[chn] := false;
      return true;
    }
  }
}
