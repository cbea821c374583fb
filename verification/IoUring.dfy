/** Asynchronous I/O through two rings: how many operations are under way, and that none is lost or doubled. */
module IoUring {
  import opened Common
  import opened Rings

  /** The rings and counters of the program, and the operations the kernel is working on. */
  datatype Uring = Uring(fds: nat, sq: Ring, toSubmit: nat, cq: Ring, numOps: nat, inFlight: multiset<Data>)

  datatype PushResult = Pushed | NoRegisteredFds | InvalidFixedFd | FullCQueue | FullSQueue

  // ---------- Steps of the program ----------

  function PushOutcome(u: Uring, fd: int): PushResult {
    if u.fds == 0 then NoRegisteredFds
    else if fd < 0 || u.fds - 1 < fd then InvalidFixedFd
    else if u.numOps >= |u.cq.slots| then FullCQueue
    else if Pending(u.sq) >= |u.sq.slots| then FullSQueue
    else Pushed
  }

  function PushStep(u: Uring, fd: int, x: Data): Uring
    requires |u.sq.slots| > 0
  {
    if PushOutcome(u, fd) == Pushed
    then u.(sq := Append(u.sq, x), toSubmit := u.toSubmit + 1, numOps := u.numOps + 1) else u
  }

  function Monus(a: nat, b: nat): nat {
    if a < b then 0 else a - b
  }

  function PopStep(u: Uring): Uring {
    if Pending(u.cq) > 0 then u.(cq := Advance(u.cq, 1), numOps := Monus(u.numOps, 1)) else u
  }

  /** The system call took `accepted` of the entries offered to it. */
  ghost function SubmitStep(u: Uring, accepted: nat): Uring
    requires |u.sq.slots| > 0 && accepted <= u.toSubmit && accepted <= Pending(u.sq)
  {
    u.(sq := Advance(u.sq, accepted), toSubmit := Monus(u.toSubmit, accepted),
       inFlight := u.inFlight + multiset(Contents(u.sq)[..accepted]))
  }

  // ---------- Step of the kernel ----------

  /** The kernel finishes one operation, any of those in flight; a completion that finds the queue full is lost. */
  ghost function CompleteStep(u: Uring, x: Data): Uring
    requires |u.cq.slots| > 0 && x in u.inFlight
  {
    var rest := u.inFlight - multiset{x};
    if Pending(u.cq) < |u.cq.slots| then u.(inFlight := rest, cq := Append(u.cq, x)) else u.(inFlight := rest)
  }

  // ---------- The invariant ----------

  /** Counted operations are those queued, in flight and not yet fetched, and their completions all fit. */
  ghost predicate Inv(u: Uring) {
    && Valid(u.sq) && Valid(u.cq) && u.toSubmit == Pending(u.sq)
    && u.numOps == Pending(u.sq) + |u.inFlight| + Pending(u.cq) <= |u.cq.slots|
  }

  /** The operations not yet fetched by the program. */
  ghost function Outstanding(u: Uring): multiset<Data>
    requires |u.sq.slots| > 0 && |u.cq.slots| > 0
  {
    multiset(Contents(u.sq)) + u.inFlight + multiset(Contents(u.cq))
  }

  lemma PushKeeps(u: Uring, fd: int, x: Data)
    requires Inv(u)
    ensures Inv(PushStep(u, fd, x))
    ensures Outstanding(PushStep(u, fd, x))
            == Outstanding(u) + if PushOutcome(u, fd) == Pushed then multiset{x} else multiset{}
  {
    hide Contents, Append, Pending, Valid;
    if PushOutcome(u, fd) == Pushed {
      PendingIsLength(u.cq);
      AppendIsEnqueue(u.sq, x);
    }
  }

  /** Each refusal has its reason, and what is accepted goes to the end of the queue. */
  lemma PushExactly(u: Uring, fd: int, x: Data)
    requires Inv(u)
    ensures
      var r, named := PushOutcome(u, fd), 0 <= fd < u.fds;
      && (r == NoRegisteredFds <==> u.fds == 0) && (r == InvalidFixedFd <==> u.fds > 0 && !named)
      && (r == FullCQueue <==> named && u.numOps == |u.cq.slots|)
      && (r == FullSQueue <==> named && u.numOps < |u.cq.slots| && |Contents(u.sq)| == |u.sq.slots|)
    ensures |PushStep(u, fd, x).sq.slots| > 0
    ensures PushOutcome(u, fd) == Pushed ==> Contents(PushStep(u, fd, x).sq) == Contents(u.sq) + [x]
  {
    hide Contents, Pending, Append, Valid;
    PendingIsLength(u.sq);
    if PushOutcome(u, fd) == Pushed {
      AppendIsEnqueue(u.sq, x);
    }
  }

  lemma PendingIsLength(r: Ring)
    requires Valid(r)
    ensures |r.slots| > 0 && |Contents(r)| == Pending(r) <= |r.slots|
  {
  }

  /** Fetching returns the oldest completion and the counter is never clamped. */
  lemma PopKeeps(u: Uring)
    requires Inv(u)
    ensures Inv(PopStep(u))
    ensures Pending(u.cq) > 0 ==>
              && u.numOps > 0 && Front(u.cq) == Contents(u.cq)[0]
              && Outstanding(u) == Outstanding(PopStep(u)) + multiset{Front(u.cq)}
  {
    hide Advance, Contents, Pending, Valid, Front;
    PendingIsLength(u.cq);
    PendingIsLength(u.sq);
    if Pending(u.cq) > 0 {
      AdvanceIsDequeue(u.cq, 1);
      FrontIsOldest(u.cq);
      var c := Contents(u.cq);
      assert c == [c[0]] + c[1..];
    }
  }

  lemma SubmitKeeps(u: Uring, accepted: nat)
    requires Inv(u) && accepted <= u.toSubmit
    ensures Inv(SubmitStep(u, accepted)) && Outstanding(SubmitStep(u, accepted)) == Outstanding(u)
  {
    hide Advance, Contents, Pending, Valid;
    PendingIsLength(u.cq);
    PendingIsLength(u.sq);
    AdvanceIsDequeue(u.sq, accepted);
    var c := Contents(u.sq);
    assert c == c[..accepted] + c[accepted..];
  }

  /** Every completion finds room. */
  lemma CompleteKeeps(u: Uring, x: Data)
    requires Inv(u) && x in u.inFlight
    ensures Pending(u.cq) < |u.cq.slots|
    ensures Inv(CompleteStep(u, x)) && Outstanding(CompleteStep(u, x)) == Outstanding(u)
  {
    hide Append, Contents, Pending, Valid;
    PendingIsLength(u.cq);
    PendingIsLength(u.sq);
    assert |u.inFlight - multiset{x}| == |u.inFlight| - 1;
    AppendIsEnqueue(u.cq, x);
  }

  // ---------- The program's object ----------

  class IoRing {
    const fds: nat
    var sq: Ring
    var toSubmit: nat
    var cq: Ring
    var numOps: nat
    ghost var inFlight: multiset<Data>

    ghost function View(): Uring
      reads this
    {
      Uring(fds, sq, toSubmit, cq, numOps, inFlight)
    }

    /** Two empty rings of sizes chosen by the kernel. */
    constructor (fds: nat, sqes: seq<Data>, cqes: seq<Data>)
      requires Valid(Ring(0, 0, sqes)) && Valid(Ring(0, 0, cqes))
      ensures Inv(View()) && numOps == 0 && this.fds == fds
    {
      this.fds, sq, toSubmit, cq, numOps, inFlight := fds, Ring(0, 0, sqes), 0, Ring(0, 0, cqes), 0, multiset{};
    }

    /** The reasons to refuse, in this order: no files, not one of them, no room for a completion, no room to queue. */
    method Push(fd: int, x: Data) returns (r: PushResult)
      requires Inv(View())
      modifies this
      ensures r == PushOutcome(old(View()), fd) && View() == PushStep(old(View()), fd, x)
      ensures r == NoRegisteredFds <==> fds == 0
      ensures r == InvalidFixedFd <==> fds > 0 && !(0 <= fd < fds)
      ensures r == FullCQueue <==> 0 <= fd < fds && old(numOps) == |old(cq).slots|
      ensures r == FullSQueue <==>
                0 <= fd < fds && old(numOps) < |old(cq).slots| && |Contents(old(sq))| == |old(sq).slots|
      ensures r == Pushed ==> Contents(sq) == Contents(old(sq)) + [x] && numOps == old(numOps) + 1
      ensures Inv(View())
    {
      hide Pending, Append, Contents, Valid;
      PushKeeps(View(), fd, x);
      PushExactly(View(), fd, x);
      if fds == 0 {
        return NoRegisteredFds;
      }
      if fd < 0 || fds - 1 < fd {
        return InvalidFixedFd;
      }
      if numOps >= |cq.slots| {
        return FullCQueue;
      }
      if Pending(sq) >= |sq.slots| {
        return FullSQueue;
      }
      sq := Append(sq, x);
      toSubmit := toSubmit + 1;
      numOps := numOps + 1;
      r := Pushed;
    }

    method Pop() returns (r: Option<Data>)
      requires Inv(View())
      modifies this
      ensures View() == PopStep(old(View())) && Inv(View())
      ensures r == if Pending(old(cq)) > 0 then Some(Front(old(cq))) else None
      ensures r.Some? ==> [r.value] + Contents(cq) == Contents(old(cq)) && numOps == old(numOps) - 1
      ensures r.None? ==> Contents(old(cq)) == [] && View() == old(View())
    {
      hide Pending, Advance, Front, Contents, Valid;
      PopKeeps(View());
      PendingIsLength(cq);
      if Pending(cq) == 0 {
        return None;
      }
      AdvanceIsDequeue(cq, 1);
      r := Some(Front(cq));
      cq := Advance(cq, 1);
      numOps := Monus(numOps, 1);
    }

    /** `answer` is what the system call returns: an error, or the number of entries the kernel took. */
    method Submit(minComplete: nat, answer: Option<nat>) returns (r: Option<nat>)
      requires Inv(View()) && (answer.Some? ==> answer.value <= toSubmit)
      modifies this
      ensures r == if old(toSubmit) == 0 && minComplete == 0 then Some(0) else answer
      ensures View() == if r.None? then old(View()) else SubmitStep(old(View()), r.value)
      ensures Inv(View())
    {
      hide Pending, Contents, Valid;
      PendingIsLength(sq);
      if toSubmit == 0 && minComplete == 0 {
        NothingSubmitted(View());
        return Some(0);
      }
      if answer.Some? {
        SubmitKeeps(View(), answer.value);
        inFlight := inFlight + multiset(Contents(sq)[..answer.value]);
        sq := Advance(sq, answer.value);
        toSubmit := Monus(toSubmit, answer.value);
      }
      r := answer;
    }
  }

  lemma NothingSubmitted(u: Uring)
    requires Inv(u)
    ensures SubmitStep(u, 0) == u
  {
    hide Pending;
    PendingIsLength(u.sq);
    assert Advance(u.sq, 0) == u.sq;
    assert Contents(u.sq)[..0] == [];
  }

  // ---------- Every interleaving ----------

  datatype Step = Push(fd: int, data: Data) | Pop | Submit(accepted: nat) | Complete(done: Data)

  /** A step that cannot be taken does nothing. */
  ghost function Take(u: Uring, e: Step): Uring
    requires Inv(u)
  {
    match e
    case Push(fd, x) => PushStep(u, fd, x)
    case Pop => PopStep(u)
    case Submit(n) => if n <= u.toSubmit then SubmitStep(u, n) else u
    case Complete(x) => if x in u.inFlight then CompleteStep(u, x) else u
  }

  lemma TakeKeeps(u: Uring, e: Step)
    requires Inv(u)
    ensures Inv(Take(u, e))
    ensures Outstanding(Take(u, e)) + Fetched(u, e) == Outstanding(u) + Accepted(u, e)
  {
    hide PushStep, SubmitStep, CompleteStep, Outstanding;
    match e
    case Push(fd, x) => PushKeeps(u, fd, x);
    case Pop => PopKeeps(u);
    case Submit(n) => if n <= u.toSubmit { SubmitKeeps(u, n); }
    case Complete(x) => if x in u.inFlight { CompleteKeeps(u, x); }
  }

  function Accepted(u: Uring, e: Step): multiset<Data> {
    if e.Push? && PushOutcome(u, e.fd) == Pushed then multiset{e.data} else multiset{}
  }

  function Fetched(u: Uring, e: Step): multiset<Data>
    requires |u.cq.slots| > 0
  {
    if e.Pop? && Pending(u.cq) > 0 then multiset{Front(u.cq)} else multiset{}
  }

  ghost function Run(u: Uring, es: seq<Step>): (r: Uring)
    requires Inv(u)
    ensures Inv(r)
    decreases |es|
  {
    if es == [] then u else TakeKeeps(u, es[0]); Run(Take(u, es[0]), es[1..])
  }

  ghost function AllAccepted(u: Uring, es: seq<Step>): multiset<Data>
    requires Inv(u)
    decreases |es|
  {
    if es == [] then multiset{} else TakeKeeps(u, es[0]); Accepted(u, es[0]) + AllAccepted(Take(u, es[0]), es[1..])
  }

  ghost function AllFetched(u: Uring, es: seq<Step>): multiset<Data>
    requires Inv(u)
    decreases |es|
  {
    if es == [] then multiset{} else TakeKeeps(u, es[0]); Fetched(u, es[0]) + AllFetched(Take(u, es[0]), es[1..])
  }

  lemma Balance(u: multiset<Data>, n: multiset<Data>, r: multiset<Data>,
                f: multiset<Data>, a: multiset<Data>, fs: multiset<Data>, rest: multiset<Data>)
    requires n + f == u + a && r + fs == n + rest
    ensures r + (f + fs) == u + (a + rest)
  {
    assert r + (f + fs) == (r + fs) + f == (n + f) + rest;
  }

  /**
    Over every interleaving: the counter is queued plus in flight plus unfetched and never exceeds the completion
    queue, and every accepted operation is fetched once or still outstanding.
    */
  lemma {:induction false} NothingLost(u: Uring, es: seq<Step>)
    requires Inv(u)
    ensures
      var r := Run(u, es);
      && r.numOps == Pending(r.sq) + |r.inFlight| + Pending(r.cq) <= |r.cq.slots|
      && Outstanding(r) + AllFetched(u, es) == Outstanding(u) + AllAccepted(u, es)
    decreases |es|
  {
    hide Take, Outstanding, Accepted, Fetched, Pending;
    if es != [] {
      TakeKeeps(u, es[0]);
      var n, rest := Take(u, es[0]), es[1..];
      NothingLost(n, rest);
      Balance(Outstanding(u), Outstanding(n), Outstanding(Run(n, rest)),
              Fetched(u, es[0]), Accepted(u, es[0]), AllFetched(n, rest), AllAccepted(n, rest));
    }
  }
}
