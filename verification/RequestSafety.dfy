/** Locks in every interleaving of the request queue: who owns them, in which order they are taken, and that
    some operation can always go on. */
module RequestSafety {
  import opened Options
  import opened Buffers
  import opened Lookups
  import opened Publishing
  import opened TransformableRequests

  // ----- locks -----

  /** The owner of a mutex is exactly the thread whose state holds it. */
  ghost predicate LockInv(s: State) {
    && (forall k, l :: 0 <= k < |s.threads| && Holds(s.threads[k], l) ==> l in s.owner && s.owner[l] == k)
    && (forall l :: l in s.owner ==> s.owner[l] < |s.threads| && Holds(s.threads[s.owner[l]], l))
    && (forall k :: 0 <= k < |s.threads| && s.threads[k].AddClientWait? ==> s.threads[k].args.guarded)
  }

  lemma HoldsAfter(s: State, pc: PC, l: Lock)
    requires ValidRegistry(s.buffer) && (pc.AddClientWait? ==> pc.args.guarded)
    ensures Holds(NextPC(s, pc), l) <==>
            Wants(pc) == Some(l) || (Holds(pc, l) && !(Wants(pc).None? && Frees(s, pc) == Some(l)))
  {
    hide CanNow, Expired, SetTransform, CanTransformInternal, Number, ValidRegistry;
  }

  lemma FreesHeld(s: State, pc: PC, l: Lock)
    requires ValidRegistry(s.buffer)
    ensures Frees(s, pc) == Some(l) ==> Holds(pc, l)
    ensures Wants(pc) == Some(l) ==> !Holds(pc, l)
    ensures !NextPC(s, pc).AddClientWait?
  {
    hide CanNow, Expired, SetTransform, CanTransformInternal, Number, ValidRegistry;
  }

  lemma OwnersStep(s: State, s': State, k: nat, pc': PC, wants: Option<Lock>, frees: Option<Lock>)
    requires LockInv(s) && k < |s.threads| && s'.threads == s.threads[k := pc']
    requires s'.owner == if wants.Some? then s.owner[wants.value := k] else if frees.Some? then s.owner - {frees.value} else s.owner
    requires wants.Some? ==> wants.value !in s.owner
    requires frees.Some? ==> Holds(s.threads[k], frees.value)
    requires forall l :: Holds(pc', l) <==> wants == Some(l) || (Holds(s.threads[k], l) && !(wants.None? && frees == Some(l)))
    requires !pc'.AddClientWait?
    ensures LockInv(s')
  {
    hide Holds;
    forall j, l | 0 <= j < |s'.threads| && Holds(s'.threads[j], l)
      ensures l in s'.owner && s'.owner[l] == j
    {
      if j != k {
        assert Holds(s.threads[j], l);
        assert l in s.owner && s.owner[l] == j;
      } else {
        assert Holds(pc', l);
      }
    }
    forall l | l in s'.owner
      ensures s'.owner[l] < |s'.threads| && Holds(s'.threads[s'.owner[l]], l)
    {
      if wants != Some(l) {
        assert l in s.owner && Holds(s.threads[s.owner[l]], l);
      }
    }
  }

  lemma LockInvAdvance(s: State, k: nat)
    requires ValidRegistry(s.buffer) && LockInv(s) && Enabled(s, k)
    ensures LockInv(Advance(s, k))
  {
    hide NextPC, NewData, Wants, Frees, ValidRegistry;
    var pc, pc' := s.threads[k], NextPC(s, s.threads[k]);
    forall l
      ensures Holds(pc', l) <==> Wants(pc) == Some(l) || (Holds(pc, l) && !(Wants(pc).None? && Frees(s, pc) == Some(l)))
      ensures Frees(s, pc) == Some(l) ==> Holds(pc, l)
    {
      HoldsAfter(s, pc, l);
      FreesHeld(s, pc, l);
    }
    hide Holds, LockInv;
    FreesHeld(s, pc, FrameMutex);
    OwnersStep(s, Advance(s, k), k, pc', Wants(pc), Frees(s, pc));
  }

  lemma EntryHoldsNothing(pc: PC)
    requires pc.Idle? || Entry(pc)
    ensures forall l :: !Holds(pc, l)
    ensures pc.AddClientWait? ==> pc.args.guarded
  {
  }

  lemma LockInvBegins(s: State, s': State)
    requires LockInv(s) && Begins(s, s')
    ensures LockInv(s')
  {
    var k, pc :| 0 <= k < |s.threads| && s.threads[k].Idle? && Entry(pc) && s' == s.(threads := s.threads[k := pc]);
    EntryHoldsNothing(pc);
    EntryHoldsNothing(Idle);
    hide Holds, Entry;
  }

  /** The order in which mutexes are taken; frame and callbacks are never held together. */
  function Rank(l: Lock): nat {
    match l
    case ClientMutex => 0
    case RequestsMutex => 1
    case FrameMutex => 2
    case CallbacksMutex => 2
  }

  lemma LockOrder(pc: PC, held: Lock)
    requires Holds(pc, held)
    ensures !pc.Idle? && (Wants(pc).Some? ==> Rank(held) < Rank(Wants(pc).value))
  {
  }

  lemma OwnerOrder(s: State, held: Lock)
    requires LockInv(s) && held in s.owner
    requires forall l :: l in s.owner ==> Rank(l) <= Rank(held)
    ensures Enabled(s, s.owner[held])
  {
    LockOrder(s.threads[s.owner[held]], held);
    hide Holds, Wants;
  }

  /** Deadlock freedom: while some operation is unfinished, some unfinished operation can take a step,
      also when clients hold a mutex of their own around addTransformableRequest and take it in callbacks. */
  lemma Progress(s: State)
    requires LockInv(s)
    requires exists k :: 0 <= k < |s.threads| && !s.threads[k].Idle?
    ensures exists k: nat :: Enabled(s, k)
  {
    hide Holds, Wants, Enabled;
    if FrameMutex in s.owner {
      OwnerOrder(s, FrameMutex);
    } else if CallbacksMutex in s.owner {
      OwnerOrder(s, CallbacksMutex);
    } else if RequestsMutex in s.owner {
      OwnerOrder(s, RequestsMutex);
    } else if ClientMutex in s.owner {
      OwnerOrder(s, ClientMutex);
    } else {
      var k :| 0 <= k < |s.threads| && !s.threads[k].Idle?;
      NothingOwned(s, k);
    }
  }

  lemma NothingOwned(s: State, k: nat)
    requires k < |s.threads| && !s.threads[k].Idle?
    requires forall l :: Rank(l) <= 2 ==> l !in s.owner
    ensures Enabled(s, k)
  {
  }
}
