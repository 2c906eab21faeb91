/** What each operation on the process table answers and changes, said without its own definition. */
module SchedLaws {
  import opened SchedSpec

  // ---- one operation ------------------------------------------------------------------------------------------

  /** At boot PID 0 is RUNNING and current, and slots 1 to 15 are free. */
  lemma BootResult()
    ensures var s := Boot();
            && |s.states| == 16 && s.cur == 0 && s.states[0] == RUNNING
            && forall p | 1 <= p < 16 :: s.states[p] == FREE
  {
  }

  /** Creation takes the lowest free slot from 1 on and makes it READY; with none free nothing changes. */
  lemma CreateResult(s: Sched)
    requires Shape(s)
    ensures var p, t := FreeSlot(s, 1), Create(s);
            && (p == 16 <==> forall i | 1 <= i < 16 :: s.states[i] != FREE)
            && (p == 16 ==> t == s)
            && (p != 16 ==>
                  && 1 <= p < 16 && s.states[p] == FREE && (forall i | 1 <= i < p :: s.states[i] != FREE)
                  && |t.states| == 16 && t.cur == s.cur && t.states[p] == READY
                  && forall i | 0 <= i < 16 && i != p :: t.states[i] == s.states[i])
  {
  }

  /**
   * Termination marks any of slots 1 to 15, current or not, and nothing else; PID 0 and numbers past the table change
   * nothing.
   */
  lemma TerminateResult(s: Sched, pid: nat)
    requires Shape(s)
    ensures var t := Terminate(s, pid);
            && |t.states| == 16 && t.cur == s.cur
            && (1 <= pid < 16 ==> t.states[pid] == TERMINATED)
            && (forall i | 0 <= i < 16 && (i != pid || pid == 0) :: t.states[i] == s.states[i])
  {
  }

  /** Only a BLOCKED process is woken, to READY. */
  lemma UnblockResult(s: Sched, pid: nat)
    requires Shape(s)
    ensures var t := Unblock(s, pid);
            && |t.states| == 16 && t.cur == s.cur
            && (pid < 16 ==> t.states[pid] == if s.states[pid] == BLOCKED then READY else s.states[pid])
            && (forall i | 0 <= i < 16 && i != pid :: t.states[i] == s.states[i])
  {
  }

  /** Blocking marks the current process and nothing else. */
  lemma BlockResult(s: Sched)
    requires Shape(s)
    ensures var t := Block(s);
            && |t.states| == 16 && t.cur == s.cur && t.states[s.cur] == BLOCKED
            && forall i | 0 <= i < 16 && i != s.cur :: t.states[i] == s.states[i]
  {
  }

  /** How many places after cur process p is, going round. */
  function Places(cur: nat, p: nat): int { (p - cur) % 16 }

  /**
   * A switch goes to the READY process fewest places after the current one, which becomes RUNNING; the one left becomes
   * READY if it was RUNNING and keeps its state otherwise. With no other READY process nothing changes.
   */
  lemma SwitchResult(s: Sched)
    requires Shape(s)
    ensures var t := Switch(s);
            if forall p | 0 <= p < 16 && p != s.cur :: s.states[p] != READY then t == s
            else
              && |t.states| == 16 && t.cur < 16 && t.cur != s.cur && s.states[t.cur] == READY
              && (forall p | 0 <= p < 16 && p != s.cur && s.states[p] == READY ::
                    Places(s.cur, t.cur) <= Places(s.cur, p))
              && t.states[t.cur] == RUNNING
              && t.states[s.cur] == (if s.states[s.cur] == RUNNING then READY else s.states[s.cur])
              && (forall p | 0 <= p < 16 && p != s.cur && p != t.cur :: t.states[p] == s.states[p])
  {
    NextReady(s, 1);
    hide Next;
    forall p: nat | p < 16 && p != s.cur && s.states[p] == READY
      ensures Switch(s).cur != s.cur && Places(s.cur, Switch(s).cur) <= Places(s.cur, p)
    {
      NextWithin(s, 1, p);
      SamePlaces(s.cur, p);
      SamePlaces(s.cur, Switch(s).cur);
      hide Places, Distance;
    }
  }

  lemma SamePlaces(cur: nat, p: nat)
    requires cur < 16 && p < 16
    ensures Places(cur, p) == Distance(cur, p)
  {
  }

  // ---- runs -----------------------------------------------------------------------------------------------------

  function Creations(k: nat): seq<Event> { seq(k, _ => CreateEv) }

  /** From boot, creation number k gets process number k, for k up to 15; the sixteenth finds no slot. */
  lemma {:induction false} FirstCreations(k: nat)
    requires k <= 15
    ensures var s := At(Boot(), Creations(k), k);
            && s.cur == 0 && s.states[0] == RUNNING
            && (forall p | 1 <= p <= k :: s.states[p] == READY) && (forall p | k < p < 16 :: s.states[p] == FREE)
            && FreeSlot(s, 1) == k + 1
  {
    hide Boot, Create, FreeSlot, Creations, At;
    Made(k);
    BootResult();
    if k > 0 {
      FirstCreations(k - 1);
      CreateResult(At(Boot(), Creations(k - 1), k - 1));
    }
    var s := At(Boot(), Creations(k), k);
    CreateResult(s);
    if k < 15 { assert s.states[k + 1] == FREE; }
  }

  lemma Made(k: nat)
    ensures |Creations(k)| == k
    ensures k == 0 ==> At(Boot(), Creations(k), k) == Boot()
    ensures k > 0 ==> |Creations(k - 1)| == k - 1
                      && At(Boot(), Creations(k), k) == Create(At(Boot(), Creations(k - 1), k - 1))
  {
    hide Boot, Create;
    if k > 0 { SameSteps(Boot(), Creations(k), Creations(k - 1), k - 1); }
  }

  lemma {:induction false} SameSteps(s: Sched, es: seq<Event>, fs: seq<Event>, k: nat)
    requires Shape(s) && k <= |es| && k <= |fs| && forall i | 0 <= i < k :: es[i] == fs[i]
    ensures At(s, es, k) == At(s, fs, k)
  {
    hide Step;
    if k > 0 { SameSteps(s, es, fs, k - 1); }
  }

  /** A process killed while it is not current is TERMINATED and is not chosen in any continuation. */
  lemma KilledNeverRuns(s: Sched, es: seq<Event>, pid: nat, k: nat)
    requires Shape(s) && 1 <= pid < 16 && pid != s.cur
    requires Run(Terminate(s, pid), es) && k <= |es|
    ensures At(Terminate(s, pid), es, k).states[pid] == TERMINATED && At(Terminate(s, pid), es, k).cur != pid
  {
    TerminateResult(s, pid);
    hide Terminate, Run, At;
    TerminatedForever(Terminate(s, pid), es, pid, k);
  }
}
