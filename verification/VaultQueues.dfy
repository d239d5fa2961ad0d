/** FIFO: with a queue, requests of a kind leave the waiting line in the order in which they were created. */
module VaultQueues {
  import opened Arithmetic
  import opened Bytes
  import opened VaultLedger
  import opened Wrappers

  /** Approved, rejected or skipped: the queue is past it. */
  predicate IsProcessed(r: Request)
  {
    r.state == Claimable || r.state == Closed
  }

  /** How many requests of a kind were created. */
  function Arrived(requests: seq<Request>, kind: RequestType): nat
  {
    if requests == [] then 0
    else
      var n := |requests| - 1;
      Arrived(requests[..n], kind) + if requests[n].kind == kind then 1 else 0
  }

  function Processed(requests: seq<Request>, kind: RequestType): nat
  {
    if requests == [] then 0
    else
      var n := |requests| - 1;
      Processed(requests[..n], kind) + if requests[n].kind == kind && IsProcessed(requests[n]) then 1 else 0
  }

  /** The place of request `i` in its kind's order of creation, from one on. */
  function Rank(requests: seq<Request>, i: nat): nat
    requires i < |requests|
  {
    Arrived(requests[..i + 1], requests[i].kind)
  }

  function Waiting(requests: seq<Request>, kind: RequestType): int
  {
    Arrived(requests, kind) - Processed(requests, kind)
  }

  /**
   The queue's counters and ids are the counts modulo 2^64, and the processed requests are exactly
   the first ones created.
   */
  ghost predicate InOrder(requests: seq<Request>, kind: RequestType, queue: Option<Queue>)
  {
    match queue
    case None => forall i :: 0 <= i < |requests| && requests[i].kind == kind ==> requests[i].queueId.None?
    case Some(q) =>
      && q.total == Arrived(requests, kind) % QUEUE_MODULUS
      && q.lastProcessed == Processed(requests, kind) % QUEUE_MODULUS
      && (forall i :: 0 <= i < |requests| && requests[i].kind == kind ==>
            && requests[i].queueId == Some(Rank(requests, i) % QUEUE_MODULUS)
            && (IsProcessed(requests[i]) <==> Rank(requests, i) <= Processed(requests, kind)))
  }

  /** Both lines are in order, and before a vault is initialized they are empty. */
  ghost predicate Ordered(l: Ledger)
  {
    && (!l.initialized ==> l.requests == [])
    && InOrder(l.requests, DepositRequest, l.subscriptions)
    && InOrder(l.requests, RedeemRequest, l.redemptions)
  }

  // ---- Counting ----

  lemma ArrivedSnoc(requests: seq<Request>, r: Request, kind: RequestType)
    ensures Arrived(requests + [r], kind) == Arrived(requests, kind) + if r.kind == kind then 1 else 0
    ensures Processed(requests + [r], kind) == Processed(requests, kind) + if r.kind == kind && IsProcessed(r) then 1 else 0
  {
    assert (requests + [r])[..|requests|] == requests;
  }

  lemma {:induction false} ArrivedMonotone(requests: seq<Request>, k: nat, kind: RequestType)
    requires k <= |requests|
    ensures Arrived(requests[..k], kind) <= Arrived(requests, kind)
  {
    if k < |requests| {
      var n := |requests| - 1;
      ArrivedMonotone(requests[..n], k, kind);
      assert requests[..n][..k] == requests[..k];
    } else {
      assert requests[..k] == requests;
    }
  }

  lemma {:induction false} ProcessedAtMostArrived(requests: seq<Request>, kind: RequestType)
    ensures Processed(requests, kind) <= Arrived(requests, kind)
  {
    if requests != [] {
      ProcessedAtMostArrived(requests[..|requests| - 1], kind);
    }
  }

  /** Later requests of a kind have greater ranks, and no rank exceeds the count. */
  lemma RankGrows(requests: seq<Request>, i: nat, j: nat)
    requires i < j < |requests| && requests[i].kind == requests[j].kind
    ensures Rank(requests, i) < Rank(requests, j)
  {
    var upTo := requests[..j + 1];
    assert upTo[..j] == requests[..j] && requests[..j][..i + 1] == requests[..i + 1];
    ArrivedMonotone(requests[..j], i + 1, requests[j].kind);
  }

  lemma RankBounded(requests: seq<Request>, i: nat)
    requires i < |requests|
    ensures 1 <= Rank(requests, i) <= Arrived(requests, requests[i].kind)
  {
    ArrivedMonotone(requests, i + 1, requests[i].kind);
  }

  /** Every rank up to the count is somebody's. */
  lemma {:induction false} RankTaken(requests: seq<Request>, kind: RequestType, rank: nat) returns (i: nat)
    requires 1 <= rank <= Arrived(requests, kind)
    ensures i < |requests| && requests[i].kind == kind && Rank(requests, i) == rank
  {
    var n := |requests| - 1;
    if rank <= Arrived(requests[..n], kind) {
      i := RankTaken(requests[..n], kind, rank);
      assert requests[..n][..i + 1] == requests[..i + 1];
    } else {
      i := n;
      assert requests[..n + 1] == requests;
    }
  }

  lemma {:induction false} CountsAfterUpdate(requests: seq<Request>, i: nat, r: Request, kind: RequestType)
    requires i < |requests| && r.kind == requests[i].kind
    ensures Arrived(requests[i := r], kind) == Arrived(requests, kind)
    ensures Processed(requests[i := r], kind) == Processed(requests, kind)
              - (if r.kind == kind && IsProcessed(requests[i]) then 1 else 0)
              + (if r.kind == kind && IsProcessed(r) then 1 else 0)
  {
    var n := |requests| - 1;
    if i < n {
      assert requests[i := r][..n] == requests[..n][i := r];
      CountsAfterUpdate(requests[..n], i, r, kind);
    } else {
      assert requests[i := r][..n] == requests[..n];
    }
  }

  lemma RanksAfterUpdate(requests: seq<Request>, i: nat, r: Request, j: nat)
    requires i < |requests| && r.kind == requests[i].kind && j < |requests|
    ensures Rank(requests[i := r], j) == Rank(requests, j)
  {
    if i <= j {
      assert requests[i := r][..j + 1] == requests[..j + 1][i := r];
      CountsAfterUpdate(requests[..j + 1], i, r, requests[j].kind);
    } else {
      assert requests[i := r][..j + 1] == requests[..j + 1];
    }
  }

  // ---- Steps ----

  /** Creating a request of one kind puts it at the end of that line. */
  lemma CreateKeepsOrder(requests: seq<Request>, kind: RequestType, queue: Option<Queue>, r: Request)
    requires InOrder(requests, kind, queue) && r.kind == kind && r.state == Pending
    requires r.queueId == NextQueueId(queue).1
    ensures InOrder(requests + [r], kind, NextQueueId(queue).0)
  {
    var more := requests + [r];
    ArrivedSnoc(requests, r, kind);
    forall i | 0 <= i < |more| && more[i].kind == kind && queue.Some?
      ensures more[i].queueId == Some(Rank(more, i) % QUEUE_MODULUS)
      ensures IsProcessed(more[i]) <==> Rank(more, i) <= Processed(more, kind)
    {
      if i < |requests| {
        assert more[..i + 1] == requests[..i + 1];
        assert Rank(more, i) == Rank(requests, i);
      } else {
        assert more[..i + 1] == more;
        ProcessedAtMostArrived(requests, kind);
        NextModulus(Arrived(requests, kind));
      }
    }
    NextModulus(Arrived(requests, kind));
  }

  lemma NextModulus(n: nat)
    ensures (n % QUEUE_MODULUS + 1) % QUEUE_MODULUS == (n + 1) % QUEUE_MODULUS
  {
  }

  lemma OtherKindKeepsOrder(requests: seq<Request>, kind: RequestType, queue: Option<Queue>, r: Request)
    requires InOrder(requests, kind, queue) && r.kind != kind
    ensures InOrder(requests + [r], kind, queue)
  {
    var more := requests + [r];
    ArrivedSnoc(requests, r, kind);
    forall i | 0 <= i < |more| && more[i].kind == kind
      ensures i < |requests| && Rank(more, i) == Rank(requests, i)
    {
      assert more[..i + 1] == requests[..i + 1];
    }
  }

  /** Changing a request without moving it past the queue, or one of another kind, changes no order. */
  lemma UpdateKeepsOrder(requests: seq<Request>, kind: RequestType, queue: Option<Queue>, i: nat, r: Request)
    requires InOrder(requests, kind, queue) && i < |requests|
    requires r.kind == requests[i].kind && r.queueId == requests[i].queueId
    requires r.kind == kind ==> (IsProcessed(r) <==> IsProcessed(requests[i])) || queue.None?
    ensures InOrder(requests[i := r], kind, queue)
  {
    CountsAfterUpdate(requests, i, r, kind);
    forall j | 0 <= j < |requests| ensures Rank(requests[i := r], j) == Rank(requests, j) {
      RanksAfterUpdate(requests, i, r, j);
    }
  }

  /** Among at most 2^64 waiting requests, only the oldest has the id the queue accepts. */
  lemma OnlyOldestAccepted(requests: seq<Request>, kind: RequestType, q: Queue, i: nat)
    requires InOrder(requests, kind, Some(q)) && Waiting(requests, kind) <= QUEUE_MODULUS
    requires i < |requests| && requests[i].kind == kind && !IsProcessed(requests[i])
    requires CheckAndAdvance(Some(q), requests[i].queueId).Ok?
    ensures Rank(requests, i) == Processed(requests, kind) + 1
  {
    RankBounded(requests, i);
    NextModulus(Processed(requests, kind));
    SameResidue(Rank(requests, i), Processed(requests, kind) + 1);
  }

  lemma SameResidue(a: nat, b: nat)
    requires b <= a < b + QUEUE_MODULUS && a % QUEUE_MODULUS == b % QUEUE_MODULUS
    ensures a == b
  {
  }

  /** Processing the accepted request moves the line up by one. */
  lemma ProcessKeepsOrder(requests: seq<Request>, kind: RequestType, q: Queue, i: nat, r: Request)
    requires InOrder(requests, kind, Some(q)) && Waiting(requests, kind) <= QUEUE_MODULUS
    requires i < |requests| && requests[i].kind == kind && !IsProcessed(requests[i])
    requires CheckAndAdvance(Some(q), requests[i].queueId).Ok?
    requires r.kind == kind && r.queueId == requests[i].queueId && IsProcessed(r)
    ensures InOrder(requests[i := r], kind, CheckAndAdvance(Some(q), requests[i].queueId).value)
  {
    OnlyOldestAccepted(requests, kind, q, i);
    CountsAfterUpdate(requests, i, r, kind);
    forall j | 0 <= j < |requests| && requests[j].kind == kind
      ensures Rank(requests[i := r], j) == Rank(requests, j)
      ensures j != i ==> Rank(requests, j) != Rank(requests, i)
    {
      RanksAfterUpdate(requests, i, r, j);
      if j < i {
        RankGrows(requests, j, i);
      } else if i < j {
        RankGrows(requests, i, j);
      }
    }
  }

  /** Both lines after request `i` of one kind was processed. */
  lemma ProcessedOrdered(l: Ledger, i: nat, r: Request)
    requires Ordered(l) && i < |l.requests| && !IsProcessed(l.requests[i])
    requires Waiting(l.requests, l.requests[i].kind) <= QUEUE_MODULUS
    requires CheckAndAdvance(QueueOf(l, l.requests[i].kind), l.requests[i].queueId).Ok?
    requires r.kind == l.requests[i].kind && r.queueId == l.requests[i].queueId && IsProcessed(r)
    ensures var kind := r.kind;
            var moved := WithQueue(l, kind, CheckAndAdvance(QueueOf(l, kind), l.requests[i].queueId).value);
            Ordered(moved.(requests := l.requests[i := r]))
  {
    hide InOrder;
    var kind := r.kind;
    var other := if kind == DepositRequest then RedeemRequest else DepositRequest;
    UpdateKeepsOrder(l.requests, other, QueueOf(l, other), i, r);
    if QueueOf(l, kind).None? {
      UpdateKeepsOrder(l.requests, kind, None, i, r);
    } else {
      ProcessKeepsOrder(l.requests, kind, QueueOf(l, kind).value, i, r);
    }
  }

  lemma UpdatedOrdered(l: Ledger, i: nat, r: Request)
    requires Ordered(l) && i < |l.requests|
    requires r.kind == l.requests[i].kind && r.queueId == l.requests[i].queueId
    requires (IsProcessed(r) <==> IsProcessed(l.requests[i])) || QueueOf(l, r.kind).None?
    ensures Ordered(l.(requests := l.requests[i := r]))
  {
    hide InOrder;
    UpdateKeepsOrder(l.requests, DepositRequest, l.subscriptions, i, r);
    UpdateKeepsOrder(l.requests, RedeemRequest, l.redemptions, i, r);
  }

  ghost predicate LinesFit(l: Ledger)
  {
    Waiting(l.requests, DepositRequest) <= QUEUE_MODULUS && Waiting(l.requests, RedeemRequest) <= QUEUE_MODULUS
  }

  lemma SameLines(l: Ledger, next: Ledger)
    requires Ordered(l) && next.requests == l.requests && (l.initialized ==> next.initialized)
    requires next.subscriptions == l.subscriptions && next.redemptions == l.redemptions
    ensures Ordered(next)
  {
  }

  lemma CreateOrdered(l: Ledger, a: Action)
    requires Ordered(l) && (a.CreateDepositAction? || a.CreateRedeemAction?) && Step(l, a).Ok?
    ensures Ordered(After(l, a))
  {
    hide InOrder, NextQueueId;
    var r := After(l, a).requests[|l.requests|];
    if a.CreateDepositAction? {
      CreateKeepsOrder(l.requests, DepositRequest, l.subscriptions, r);
      OtherKindKeepsOrder(l.requests, RedeemRequest, l.redemptions, r);
    } else {
      CreateKeepsOrder(l.requests, RedeemRequest, l.redemptions, r);
      OtherKindKeepsOrder(l.requests, DepositRequest, l.subscriptions, r);
    }
  }

  lemma ApproveOrdered(l: Ledger, signer: Address, i: nat, slot: U64)
    requires Ordered(l) && LinesFit(l) && ApproveRequest(l, signer, i, slot).Ok?
    ensures Ordered(ApproveRequest(l, signer, i, slot).value)
  {
    hide InOrder, CheckAndAdvance, Waiting;
    var next := ApproveRequest(l, signer, i, slot).value;
    ProcessedOrdered(l, i, next.requests[i]);
  }

  lemma RejectOrdered(l: Ledger, signer: Address, i: nat)
    requires Ordered(l) && LinesFit(l) && RejectRequest(l, signer, i).Ok?
    ensures Ordered(RejectRequest(l, signer, i).value)
  {
    hide InOrder, CheckAndAdvance, Waiting;
    ProcessedOrdered(l, i, RejectRequest(l, signer, i).value.requests[i]);
  }

  lemma SkipOrdered(l: Ledger, i: nat)
    requires Ordered(l) && LinesFit(l) && SkipCanceledRequest(l, i).Ok?
    ensures Ordered(SkipCanceledRequest(l, i).value)
  {
    hide InOrder, CheckAndAdvance, Waiting;
    ProcessedOrdered(l, i, SkipCanceledRequest(l, i).value.requests[i]);
  }

  lemma NoIdNoQueue(l: Ledger, i: nat)
    requires Ordered(l) && i < |l.requests| && l.requests[i].queueId.None?
    ensures QueueOf(l, l.requests[i].kind).None?
  {
  }

  lemma CancelOrdered(l: Ledger, user: Address, i: nat)
    requires Ordered(l) && CancelRequest(l, user, i).Ok?
    ensures Ordered(CancelRequest(l, user, i).value)
  {
    hide InOrder;
    NoIdNoQueue(l, i);
    UpdatedOrdered(l, i, CancelRequest(l, user, i).value.requests[i]);
  }

  lemma ChangeOrdered(l: Ledger, a: Action)
    requires Ordered(l) && (a.CancelQueuedAction? || a.ClaimAction? || a.SetOperatorAction?) && Step(l, a).Ok?
    ensures Ordered(After(l, a))
  {
    hide InOrder;
    UpdatedOrdered(l, a.i, After(l, a).requests[a.i]);
  }

  lemma UntouchedOrdered(l: Ledger, a: Action)
    requires Ordered(l) && Step(l, a).Ok?
    requires a.InstantDepositAction? || a.InstantRedeemAction? || a.WithdrawAction? || a.UpdateNavAction?
             || a.ConfigureAction? || a.PauseAction? || a.InitializeAction? || a.OpenPositionAction? || a.DeployAction? || a.PullAction?
    ensures Ordered(After(l, a))
  {
    hide InOrder, InstantDepositTerms, InstantRedeemTerms, DeploymentAccepted, PullAccepted, Usable;
    SameLines(l, After(l, a));
  }

  /** A queue that is added has an empty line behind it. */
  lemma AddQueueOrdered(l: Ledger, signer: Address, kind: RequestType)
    requires Ordered(l) && AddQueue(l, signer, kind).Ok?
    ensures Ordered(AddQueue(l, signer, kind).value)
  {
  }

  /** What an instruction does to the lines: nothing, one more, one changed, or one processed. */
  lemma StepOrdered(l: Ledger, a: Action)
    requires Ordered(l) && LinesFit(l)
    ensures Ordered(After(l, a))
  {
    if Step(l, a).Ok? {
      hide Ordered, LinesFit, ApproveRequest, RejectRequest, SkipCanceledRequest, CancelRequest, AddQueue;
      match a {
        case CreateDepositAction(_, _, _, _) => CreateOrdered(l, a);
        case CreateRedeemAction(_, _, _, _) => CreateOrdered(l, a);
        case ApproveAction(signer, i, slot) => ApproveOrdered(l, signer, i, slot);
        case RejectAction(signer, i) => RejectOrdered(l, signer, i);
        case SkipAction(i) => SkipOrdered(l, i);
        case CancelAction(user, i) => CancelOrdered(l, user, i);
        case CancelQueuedAction(_, _) => ChangeOrdered(l, a);
        case ClaimAction(_, _) => ChangeOrdered(l, a);
        case SetOperatorAction(_, _, _) => ChangeOrdered(l, a);
        case AddQueueAction(signer, kind) => AddQueueOrdered(l, signer, kind);
        case _ => UntouchedOrdered(l, a);
      }
    }
  }

  /** The lines fit at every point of a run. */
  ghost predicate AlwaysFit(l: Ledger, run: seq<Action>)
    decreases |run|
  {
    LinesFit(l) && (run != [] ==> AlwaysFit(After(l, run[0]), run[1..]))
  }

  lemma {:induction false} RunOrdered(l: Ledger, run: seq<Action>)
    requires Ordered(l) && AlwaysFit(l, run)
    ensures Ordered(AfterAll(l, run))
    decreases |run|
  {
    if run != [] {
      StepOrdered(l, run[0]);
      RunOrdered(After(l, run[0]), run[1..]);
    }
  }

  /**
   First in, first out: over any run in which no line ever holds more than 2^64 waiting requests, when
   a queued request has been processed, so has every earlier one of its kind.
   */
  lemma FirstInFirstOut(l: Ledger, run: seq<Action>, i: nat, j: nat)
    requires Ordered(l) && AlwaysFit(l, run)
    requires var end := AfterAll(l, run);
             && i < j < |end.requests| && end.requests[i].kind == end.requests[j].kind
             && QueueOf(end, end.requests[j].kind).Some? && IsProcessed(end.requests[j])
    ensures IsProcessed(AfterAll(l, run).requests[i])
  {
    RunOrdered(l, run);
    RankGrows(AfterAll(l, run).requests, i, j);
  }

  lemma {:induction false} ArrivedAtMostAll(requests: seq<Request>, kind: RequestType)
    ensures Arrived(requests, kind) <= |requests|
  {
    if requests != [] {
      ArrivedAtMostAll(requests[..|requests| - 1], kind);
    }
  }

  lemma SettlingKeepsCount(l: Ledger, a: Action)
    requires a.ApproveAction? || a.RejectAction? || a.CancelAction? || a.CancelQueuedAction?
    ensures |After(l, a).requests| == |l.requests|
  {
    hide DepositSettlement, RedeemSettlement, CheckAndAdvance, Usable, Refundable;
  }

  lemma StepAddsAtMostOne(l: Ledger, a: Action)
    ensures |l.requests| <= |After(l, a).requests| <= |l.requests| + 1
  {
    hide DepositAccepted, RedemptionAccepted, InstantDepositTerms, InstantRedeemTerms, Redeemed, CheckAndAdvance, Usable, NextQueueId,
      DeploymentAccepted, PullAccepted,
      ApproveRequest, RejectRequest, CancelRequest, CancelQueuedRequest;
    if a.ApproveAction? || a.RejectAction? || a.CancelAction? || a.CancelQueuedAction? {
      SettlingKeepsCount(l, a);
    }
  }

  /** No line can overflow within 2^64 instructions of creating a vault. */
  lemma {:induction false} ShortRunFits(l: Ledger, run: seq<Action>)
    requires |l.requests| + |run| <= QUEUE_MODULUS
    ensures AlwaysFit(l, run)
    decreases |run|
  {
    ArrivedAtMostAll(l.requests, DepositRequest);
    ArrivedAtMostAll(l.requests, RedeemRequest);
    if run != [] {
      StepAddsAtMostOne(l, run[0]);
      ShortRunFits(After(l, run[0]), run[1..]);
    }
  }

  lemma CreatedOrdered(config: Config, decimals: U8)
    ensures Ordered(Created(config, decimals)) && Created(config, decimals).requests == []
  {
  }

  /** First in, first out, from the creation of a vault and for its first 2^64 instructions. */
  lemma ReachableFirstInFirstOut(config: Config, decimals: U8, run: seq<Action>, i: nat, j: nat)
    requires |run| <= QUEUE_MODULUS
    requires var end := AfterAll(Created(config, decimals), run);
             && i < j < |end.requests| && end.requests[i].kind == end.requests[j].kind
             && QueueOf(end, end.requests[j].kind).Some? && IsProcessed(end.requests[j])
    ensures IsProcessed(AfterAll(Created(config, decimals), run).requests[i])
  {
    hide Ordered, AlwaysFit, AfterAll, Created;
    var start := Created(config, decimals);
    CreatedOrdered(config, decimals);
    ShortRunFits(start, run);
    FirstInFirstOut(start, run, i, j);
  }

  /**
   The bound is exact: the check lets only the oldest waiting request through if and only if at most
   2^64 are waiting. Beyond that the ids wrap around onto a younger request.
   */
  lemma OldestOnlyIffLineFits(requests: seq<Request>, kind: RequestType, q: Queue)
    requires InOrder(requests, kind, Some(q))
    ensures Waiting(requests, kind) <= QUEUE_MODULUS
       <==> (forall i :: 0 <= i < |requests| && requests[i].kind == kind && !IsProcessed(requests[i])
                         && CheckAndAdvance(Some(q), requests[i].queueId).Ok?
                         ==> Rank(requests, i) == Processed(requests, kind) + 1)
  {
    if Waiting(requests, kind) <= QUEUE_MODULUS {
      forall i | 0 <= i < |requests| && requests[i].kind == kind && !IsProcessed(requests[i])
                 && CheckAndAdvance(Some(q), requests[i].queueId).Ok?
        ensures Rank(requests, i) == Processed(requests, kind) + 1
      {
        OnlyOldestAccepted(requests, kind, q, i);
      }
    } else {
      var p := Processed(requests, kind);
      var i := RankTaken(requests, kind, p + 1 + QUEUE_MODULUS);
      WrapsOnto(p);
      assert !IsProcessed(requests[i]);
      assert CheckAndAdvance(Some(q), requests[i].queueId).Ok?;
    }
  }

  lemma WrapsOnto(p: nat)
    ensures (p + 1 + QUEUE_MODULUS) % QUEUE_MODULUS == (p % QUEUE_MODULUS + 1) % QUEUE_MODULUS
  {
  }
}
