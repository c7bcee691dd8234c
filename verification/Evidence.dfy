/** The evidence that a guest's processes ended, as the host judges it. */
module Evidence {
  import opened Options

  datatype Code = Mismatch | ResultInvalid | PipeCleanupFailed | Timeout | Uncertain | DescendantsRemain | Reported(code: string)

  /** One inventory of the guest's descendants; the control group is populated
      exactly when there are some. */
  datatype Inventory = Inventory(sequence: nat, time: real, complete: bool, descendants: seq<int>)

  datatype Policy = Policy(term: real, kill: real, pipe: real, quiescence: real)

  datatype Request = Request(policy: Policy, deadline: real)

  /** `bound`: every identity and digest equals the requested one; `outputOk`: the
      output is small enough and names neither the prompt nor the profile. */
  datatype Record = Record(bound: bool, outputOk: bool, errorCode: Option<string>,
                           termSent: bool, termAt: real, killSent: bool, killAt: real,
                           pipesClosed: bool, pipeAt: real, inventories: seq<Inventory>)

  /** Result records order their cleanup timestamps by construction. */
  type Result = r: Record | r.termAt <= r.killAt <= r.pipeAt
    witness Record(true, true, None, false, 0.0, false, 0.0, true, 0.0, [])

  // ---- inventories ----

  predicate Follows(previous: Inventory, current: Inventory) {
    current.sequence == previous.sequence + 1 && current.time >= previous.time
  }

  /** Neighbours only, as the validator compares them. */
  predicate Pairwise(inv: seq<Inventory>) {
    |inv| < 2 || (Follows(inv[0], inv[1]) && Pairwise(inv[1..]))
  }

  function ValidateInventories(inv: seq<Inventory>, quiescence: real): Option<Code> {
    if |inv| < 2 || !(forall i :: 0 <= i < |inv| ==> inv[i].complete) then Some(Uncertain)
    else if !Pairwise(inv) then Some(Uncertain)
    else
      var a, b := inv[|inv| - 2], inv[|inv| - 1];
      if a.descendants != [] || b.descendants != [] then Some(DescendantsRemain)
      else if b.time - a.time < quiescence then Some(Uncertain)
      else None
  }

  /** What an accepted list of inventories means as a whole. */
  predicate Orderly(inv: seq<Inventory>, quiescence: real) {
    && |inv| >= 2
    && (forall i :: 0 <= i < |inv| ==> inv[i].complete && inv[i].sequence == inv[0].sequence + i)
    && (forall i, j :: 0 <= i <= j < |inv| ==> inv[i].time <= inv[j].time)
    && inv[|inv| - 2].descendants == [] == inv[|inv| - 1].descendants
    && inv[|inv| - 1].time - inv[|inv| - 2].time >= quiescence
  }

  /** Neighbour checks order the whole list. */
  lemma {:induction false} PairwiseIsGlobal(inv: seq<Inventory>)
    ensures Pairwise(inv) <==>
              && (forall i :: 0 <= i < |inv| ==> inv[i].sequence == inv[0].sequence + i)
              && (forall i, j :: 0 <= i <= j < |inv| ==> inv[i].time <= inv[j].time)
  {
    if |inv| >= 2 {
      var rest := inv[1..];
      PairwiseIsGlobal(rest);
      if Pairwise(inv) {
        forall i | 1 <= i < |inv| ensures inv[i].sequence == inv[0].sequence + i && inv[0].time <= inv[i].time {
          assert inv[i] == rest[i - 1] && rest[0].time <= rest[i - 1].time;
        }
        forall i, j | 0 <= i <= j < |inv| ensures inv[i].time <= inv[j].time {
          if i > 0 {
            assert inv[i] == rest[i - 1] && inv[j] == rest[j - 1];
          }
        }
      }
      if (forall i :: 0 <= i < |inv| ==> inv[i].sequence == inv[0].sequence + i)
         && (forall i, j :: 0 <= i <= j < |inv| ==> inv[i].time <= inv[j].time)
      {
        assert inv[1].sequence == inv[0].sequence + 1;
        forall i | 0 <= i < |rest| ensures rest[i].sequence == rest[0].sequence + i {
          assert rest[i] == inv[i + 1];
        }
        forall i, j | 0 <= i <= j < |rest| ensures rest[i].time <= rest[j].time {
          assert rest[i] == inv[i + 1] && rest[j] == inv[j + 1];
        }
      }
    }
  }

  lemma InventoriesExact(inv: seq<Inventory>, quiescence: real)
    ensures ValidateInventories(inv, quiescence).None? <==> Orderly(inv, quiescence)
  {
    PairwiseIsGlobal(inv);
  }

  // ---- the whole record ----

  function ValidateResult(q: Request, r: Result): Option<Code> {
    if !r.bound then Some(Mismatch)
    else if !r.outputOk then Some(ResultInvalid)
    else if !r.pipesClosed then Some(PipeCleanupFailed)
    else if r.killSent && !r.termSent then Some(ResultInvalid)
    else if r.killSent && r.killAt - r.termAt > q.policy.term then Some(Timeout)
    else if r.termSent
         && r.pipeAt - (if r.killSent then r.killAt else r.termAt)
            > (if r.killSent then q.policy.kill else q.policy.term) + q.policy.pipe then Some(PipeCleanupFailed)
    else if r.pipeAt > q.deadline || exists i :: 0 <= i < |r.inventories| && r.inventories[i].time > q.deadline
      then Some(Timeout)
    else if ValidateInventories(r.inventories, q.policy.quiescence).Some?
      then ValidateInventories(r.inventories, q.policy.quiescence)
    else if r.errorCode.Some? then Some(Reported(r.errorCode.value))
    else None
  }

  /** The final evidence lies inside the host's view of the invoke call. */
  predicate InWindow(r: Result, startedAt: real, returnedAt: real) {
    && startedAt <= r.pipeAt <= returnedAt
    && forall i :: 0 <= i < |r.inventories| && |r.inventories| - 2 <= i ==>
         r.pipeAt <= r.inventories[i].time <= returnedAt
  }

  /** Which code a refused record gets: that of the first condition that fails. */
  lemma CodesExactly(q: Request, r: Result)
    ensures
      var code := ValidateResult(q, r);
      var cleanupStart := if r.killSent then r.killAt else r.termAt;
      var grace := if r.killSent then q.policy.kill else q.policy.term;
      && (!r.bound ==> code == Some(Mismatch))
      && (r.bound && !r.outputOk ==> code == Some(ResultInvalid))
      && (r.bound && r.outputOk ==>
           && (!r.pipesClosed ==> code == Some(PipeCleanupFailed))
           && (r.pipesClosed && r.killSent && !r.termSent ==> code == Some(ResultInvalid))
           && (r.pipesClosed && r.killSent && r.termSent && r.killAt - r.termAt > q.policy.term ==> code == Some(Timeout))
           && (r.pipesClosed && r.termSent && !(r.killSent && r.killAt - r.termAt > q.policy.term) ==>
                 r.pipeAt - cleanupStart > grace + q.policy.pipe ==> code == Some(PipeCleanupFailed)))
  {
  }

  /** With its signals and pipes in order, a late record is a timeout, before its
      inventories are judged, and a reported error comes last. */
  lemma LateCodesExactly(q: Request, r: Result)
    requires r.bound && r.outputOk && r.pipesClosed && !r.killSent && !r.termSent
    ensures
      var code := ValidateResult(q, r);
      var late := r.pipeAt > q.deadline || exists x :: x in r.inventories && x.time > q.deadline;
      && (late ==> code == Some(Timeout))
      && (!late && !Orderly(r.inventories, q.policy.quiescence) ==> code == ValidateInventories(r.inventories, q.policy.quiescence))
      && (!late && Orderly(r.inventories, q.policy.quiescence) ==>
            code == if r.errorCode.Some? then Some(Reported(r.errorCode.value)) else None)
  {
    InventoriesExact(r.inventories, q.policy.quiescence);
    if x :| x in r.inventories && x.time > q.deadline {
      var i :| 0 <= i < |r.inventories| && r.inventories[i] == x;
      assert r.inventories[i].time > q.deadline;
    }
  }

  /** Inventories are refused for living descendants only if they are in order. */
  lemma DescendantsCode(inv: seq<Inventory>, quiescence: real)
    ensures ValidateInventories(inv, quiescence) == Some(DescendantsRemain) <==>
              && |inv| >= 2 && (forall i :: 0 <= i < |inv| ==> inv[i].complete && inv[i].sequence == inv[0].sequence + i)
              && (forall i, j :: 0 <= i < j < |inv| ==> inv[i].time <= inv[j].time)
              && (inv[|inv| - 2].descendants != [] || inv[|inv| - 1].descendants != [])
    ensures ValidateInventories(inv, quiescence) in {None, Some(DescendantsRemain), Some(Uncertain)}
  {
    PairwiseIsGlobal(inv);
  }

  /** The window, for the last two inventories by name. */
  lemma WindowExactly(r: Result, startedAt: real, returnedAt: real)
    requires |r.inventories| >= 2
    ensures
      var a, b := r.inventories[|r.inventories| - 2], r.inventories[|r.inventories| - 1];
      InWindow(r, startedAt, returnedAt) <==>
        && startedAt <= r.pipeAt && r.pipeAt <= returnedAt
        && r.pipeAt <= a.time && a.time <= returnedAt && r.pipeAt <= b.time && b.time <= returnedAt
  {
  }

  /** Once asked to terminate, the guest closed its pipes within all three graces. */
  lemma CleanupIsBounded(q: Request, r: Result)
    requires ValidateResult(q, r).None? && r.termSent && q.policy.kill > 0.0
    ensures 0.0 <= r.pipeAt - r.termAt <= q.policy.term + q.policy.kill + q.policy.pipe
    ensures !r.killSent ==> r.pipeAt - r.termAt <= q.policy.term + q.policy.pipe
  {
  }

  /** Accepted evidence, read as a whole: nothing is left running, the inventories
      are consecutive and in time order, and the pipes closed at least one
      quiescence period before the call returned, all within the deadline. */
  lemma AcceptedEvidence(q: Request, r: Result, startedAt: real, returnedAt: real)
    requires ValidateResult(q, r).None? && InWindow(r, startedAt, returnedAt)
    ensures Orderly(r.inventories, q.policy.quiescence)
    ensures forall i :: 0 <= i < |r.inventories| ==>
              r.inventories[i].time <= q.deadline && r.inventories[i].time <= returnedAt
    ensures startedAt <= r.pipeAt <= returnedAt - q.policy.quiescence
    ensures r.pipeAt <= q.deadline - q.policy.quiescence
  {
    InventoriesExact(r.inventories, q.policy.quiescence);
    var last := |r.inventories| - 1;
    assert r.pipeAt <= r.inventories[last - 1].time && r.inventories[last].time <= returnedAt;
  }

  /** Exactly which records the host accepts. */
  lemma AcceptanceExact(q: Request, r: Result)
    ensures ValidateResult(q, r).None? <==>
              && r.bound && r.outputOk && r.pipesClosed && r.errorCode.None?
              && (r.killSent ==> r.termSent && r.killAt - r.termAt <= q.policy.term)
              && (r.killSent ==> r.pipeAt - r.killAt <= q.policy.kill + q.policy.pipe)
              && (r.termSent && !r.killSent ==> r.pipeAt - r.termAt <= q.policy.term + q.policy.pipe)
              && r.pipeAt <= q.deadline
              && (forall i :: 0 <= i < |r.inventories| ==> r.inventories[i].time <= q.deadline)
              && Orderly(r.inventories, q.policy.quiescence)
  {
    InventoriesExact(r.inventories, q.policy.quiescence);
  }
}
