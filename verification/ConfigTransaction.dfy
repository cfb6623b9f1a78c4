/** The transactions of config_apply.c: program the runtime first, replace the
    persistent file only after that succeeded, replay the current configuration
    otherwise. */
module ConfigTransaction {
  import opened Bytes
  import opened Json
  import opened ConfigModel
  import opened ConfigReplay
  import opened ConfigApply

  datatype Rc = Done | Invalid | Missing | RuntimeFailed | SaveFailed

  /** One application of a configuration: the order the ports came in and what
      was written. */
  datatype Pass = Pass(order: seq<string>, x: Stretch)

  /** What a transaction did to the switch: its own pass and the replay after a
      failure. */
  datatype Trace = Trace(run: Pass, replay: Pass)

  ghost predicate PassOf(p: Pass, hw: Hardware, able: bool, config: Json, delta: Option<Json>) {
    && IsOrder(p.order, Iterated(config, delta))
    && p.x.ws == ConfigWrites(hw, config, delta, p.order)
    && (forall a :: a in p.x.made ==> a.write in p.x.ws)
    && (p.x.rc ==>
          && Attempted(p.x.made) == p.x.ws
          && forall a :: a in p.x.made && !a.ok ==> Optional(a.write.reg))
    && (able ==> Complete(p))
  }

  /** Every write of the pass was made. */
  ghost predicate Complete(p: Pass) { p.x.rc && !SomeLost(p.x.made) }

  lemma AppliedPass(p: Pass, hw: Hardware, able: bool, config: Json, delta: Option<Json>, r: Registers, s: Registers,
                    g: Flags)
    requires Applied(p.x, able, r, s, g) && IsOrder(p.order, Iterated(config, delta))
    requires p.x.ws == ConfigWrites(hw, config, delta, p.order)
    ensures PassOf(p, hw, able, config, delta)
    ensures s == Landed(r, p.x.made)
    ensures p.x.rc && !g.degraded ==> Complete(p)
  {
    hide Attempted, SomeLost, IsOrder, Iterated, ConfigWrites;
  }

  lemma CompleteCovered(r: Registers, p: Pass)
    requires Complete(p)
    ensures forall a :: a in p.x.made ==> Covered(r, p.x.made, a)
  {
  }

  /** A complete full pass leaves the registers reflecting its configuration. */
  lemma FullPass(p: Pass, hw: Hardware, able: bool, config: Json, r: Registers)
    requires PassOf(p, hw, able, config, None) && Complete(p) && Agree(hw, config)
    ensures Landed(r, p.x.made) == WriteAll(r, ConfigWrites(hw, config, None, p.order))
    ensures Reflects(hw, Landed(r, p.x.made), config)
  {
    CompleteCovered(r, p);
    hide Landed, WriteAll, Attempted, Agree, Reflects, ConfigWrites, Iterated, Covered, IsOrder;
    RunConsistent(hw, config, None, p.order);
    LossIff(r, p.x.made);
    FullReflects(hw, r, config, p.order);
  }

  /** A complete delta pass over registers that reflect the current
      configuration leaves them reflecting the merged one. */
  lemma DeltaPass(p: Pass, hw: Hardware, able: bool, current: Json, delta: Json, r: Registers)
    requires PassOf(p, hw, able, Merge(current, delta), Some(delta)) && Complete(p)
    requires Mergeable(hw, current, delta) && Agree(hw, Merge(current, delta)) && Reflects(hw, r, current)
    ensures Reflects(hw, Landed(r, p.x.made), Merge(current, delta))
  {
    CompleteCovered(r, p);
    hide Landed, WriteAll, Attempted, Agree, Reflects, ConfigWrites, Iterated, Covered, IsOrder, Merge, Mergeable;
    RunConsistent(hw, Merge(current, delta), Some(delta), p.order);
    LossIff(r, p.x.made);
    DeltaReflects(hw, r, current, delta, p.order);
  }

  /** The registers equal full programming of the configuration, whatever order
      its ports are taken in. */
  ghost predicate FullyProgrammed(hw: Hardware, before: Registers, after: Registers, config: Json) {
    forall all :: IsOrder(all, Iterated(config, None)) ==>
      after == WriteAll(before, ConfigWrites(hw, config, None, all))
  }

  ghost predicate AllCovered(before: Registers, made: seq<Attempt>) {
    forall a :: a in made ==> Covered(before, made, a)
  }

  /** A delta pass that returned 0 is full programming exactly when each write it
      lost is covered. */
  lemma DeltaPassIff(p: Pass, hw: Hardware, able: bool, current: Json, delta: Json, r: Registers)
    requires PassOf(p, hw, able, Merge(current, delta), Some(delta)) && p.x.rc
    requires Mergeable(hw, current, delta) && Agree(hw, Merge(current, delta)) && Reflects(hw, r, current)
    ensures FullyProgrammed(hw, r, Landed(r, p.x.made), Merge(current, delta)) <==> AllCovered(r, p.x.made)
  {
    hide Landed, WriteAll, Attempted, Agree, Reflects, ConfigWrites, Iterated, Covered, IsOrder, Merge, Mergeable;
    var merged := Merge(current, delta);
    forall all | IsOrder(all, Iterated(merged, None))
      ensures Landed(r, p.x.made) == WriteAll(r, ConfigWrites(hw, merged, None, all)) <==> AllCovered(r, p.x.made)
    {
      LossyIncrementalIff(hw, r, current, delta, p.x.made, p.order, all);
    }
    var all := SomeOrder(Iterated(merged, None));
  }

  /** A failed pass that named no new port, undone by a complete replay, leaves
      every register as it was. */
  lemma RestoredExactly(run: Pass, replay: Pass, hw: Hardware, able: bool, current: Json, target: Json,
                        delta: Option<Json>, r: Registers)
    requires PassOf(run, hw, able, target, delta) && PassOf(replay, hw, able, current, None)
    requires ConfigModel.Valid(current) && ConfigModel.Valid(target) && PortsWithin(target, current)
    requires Complete(replay) && Reflects(hw, r, current) && Agree(hw, current)
    ensures Landed(Landed(r, run.x.made), replay.x.made) == r
  {
    hide Landed, WriteAll, Attempted, Agree, Reflects, ConfigWrites, Iterated, IsOrder, Complete, ConfigModel.Valid,
         PortsWithin, Programmed;
    var failed := Landed(r, run.x.made);
    FullPass(replay, hw, able, current, failed);
    RollbackRestoresIff(hw, r, failed, current, replay.order);
    forall reg | !Programmed(hw, current, reg) ensures SameAt(failed, r, reg) {
      forall a | a in run.x.made ensures a.write.reg != reg {
        WrittenIsProgrammed(hw, target, delta, run.order, a.write);
        NoNewRegister(hw, target, current, a.write);
      }
      LandedOther(r, run.x.made, reg);
    }
  }

  /** What a failed transaction leaves: the prior configuration replayed. */
  ghost predicate Undone(t: Trace, hw: Hardware, able: bool, current: Json, target: Json, before: Registers,
                         after: Registers)
  {
    && PassOf(t.replay, hw, able, current, None)
    && after == Landed(Landed(before, t.run.x.made), t.replay.x.made)
    && (Reflects(hw, before, current) && Agree(hw, current) && (Complete(t.replay) || able) ==>
          && Reflects(hw, after, current)
          && (PortsWithin(target, current) ==> after == before))
  }

  lemma IsUndone(t: Trace, hw: Hardware, able: bool, current: Json, target: Json, delta: Option<Json>,
                 before: Registers, after: Registers)
    requires PassOf(t.run, hw, able, target, delta) && PassOf(t.replay, hw, able, current, None)
    requires ConfigModel.Valid(current) && ConfigModel.Valid(target)
    requires after == Landed(Landed(before, t.run.x.made), t.replay.x.made)
    ensures Undone(t, hw, able, current, target, before, after)
  {
    assert able ==> Complete(t.replay);
    hide PassOf, Agree, Reflects, Landed, Complete, PortsWithin, ConfigModel.Valid;
    if Reflects(hw, before, current) && Agree(hw, current) && (Complete(t.replay) || able) {
      FullPass(t.replay, hw, able, current, Landed(before, t.run.x.made));
      if PortsWithin(target, current) {
        RestoredExactly(t.run, t.replay, hw, able, current, target, delta, before);
      }
    }
  }

  class Store {
    const sw: Switch
    /** validate_configuration. */
    const accepts: Json -> bool
    /** The persistent file. */
    var file: Option<Json>
    var runtimeError: bool

    constructor (sw: Switch, accepts: Json -> bool, file: Option<Json>)
      ensures this.sw == sw && this.accepts == accepts && this.file == file && !runtimeError
    {
      this.sw, this.accepts, this.file, this.runtimeError := sw, accepts, file, false;
    }

    /** The file holds an accepted configuration; acceptance includes the
        structure the programming relies on. */
    ghost predicate Valid()
      reads this
    {
      (forall c :: accepts(c) ==> ConfigModel.Valid(c)) && (file.Some? ==> accepts(file.value))
    }

    /** The switch runs the configuration in the file. */
    ghost predicate InStep()
      reads this, sw
    {
      file.Some? ==> Reflects(sw.hw, sw.regs, file.value) && Agree(sw.hw, file.value)
    }

    /** save_config_file: a rename at the end, so all or nothing. */
    method Save(config: Json) returns (ok: bool)
      modifies `file
      ensures file == if ok then Some(config) else old(file)
    {
      ok := *;
      if ok {
        file := Some(config);
      }
    }

    /** rollback_runtime. */
    method Rollback(current: Json) returns (ghost p: Pass)
      modifies sw
      ensures PassOf(p, sw.hw, sw.Able(), current, None) && sw.regs == Landed(old(sw.regs), p.x.made)
    {
      hide PassOf, Applied, IsOrder, Iterated;
      var result := new ApplyResult();
      ghost var r := sw.regs;
      var rc;
      ghost var order, x;
      rc, order, x := sw.Apply(current, None, result);
      p := Pass(order, x);
      AppliedPass(p, sw.hw, sw.Able(), current, None, r, sw.regs, result.Seen());
    }

    /** The part both transactions share: apply, save, and undo on failure. */
    method Commit(current: Json, target: Json, delta: Option<Json>, result: ApplyResult)
      returns (rc: Rc, ghost t: Trace)
      requires !result.requiredFailed
      modifies this, sw, result
      ensures rc.Done? || rc.RuntimeFailed? || rc.SaveFailed?
      ensures runtimeError == !rc.Done?
      ensures file == if rc.Done? then Some(target) else old(file)
      ensures PassOf(t.run, sw.hw, sw.Able(), target, delta)
      ensures rc.Done? ==>
                t.run.x.rc && sw.regs == Landed(old(sw.regs), t.run.x.made) && (!result.degraded ==> Complete(t.run))
      ensures !rc.Done? ==> PassOf(t.replay, sw.hw, sw.Able(), current, None)
                            && sw.regs == Landed(Landed(old(sw.regs), t.run.x.made), t.replay.x.made)
      ensures sw.Able() ==> !rc.RuntimeFailed?
    {
      hide PassOf, Applied, IsOrder, Iterated;
      ghost var r := sw.regs;
      var ok;
      ghost var order, x;
      ok, order, x := sw.Apply(target, delta, result);
      ghost var run := Pass(order, x);
      AppliedPass(run, sw.hw, sw.Able(), target, delta, r, sw.regs, result.Seen());
      AppliedAble(x, sw.Able(), r, sw.regs, result.Seen());
      if !ok {
        ghost var back := Rollback(current);
        runtimeError := true;
        return RuntimeFailed, Trace(run, back);
      }
      var saved := Save(target);
      if !saved {
        ghost var back := Rollback(current);
        runtimeError := true;
        return SaveFailed, Trace(run, back);
      }
      runtimeError := false;
      return Done, Trace(run, run);
    }

    /** config_merge_validate_save_apply. */
    method MergeAndApply(delta: Json, result: ApplyResult) returns (rc: Rc, ghost t: Trace)
      requires Valid() && !result.requiredFailed
      modifies this, sw, result
      ensures Valid()
      ensures rc.Missing? <==> delta.Obj? && old(file).None?
      ensures rc.Invalid? <==> !delta.Obj? || (old(file).Some? && !accepts(Merge(old(file).value, delta)))
      ensures rc.Invalid? || rc.Missing? ==>
                file == old(file) && sw.regs == old(sw.regs) && runtimeError == old(runtimeError)
      ensures rc.Done? ==> file == Some(Merge(old(file).value, delta)) && !runtimeError
      ensures rc.RuntimeFailed? || rc.SaveFailed? ==> file == old(file) && runtimeError
      // After success the registers are as full programming of the merged
      // configuration would leave them exactly when the writes that were lost
      // are covered; nothing was lost when the result is not degraded.
      ensures rc.Done? && old(InStep()) && Powered(sw.hw, file.value) && Agree(sw.hw, file.value) ==>
                && (FullyProgrammed(sw.hw, old(sw.regs), sw.regs, file.value) <==>
                      AllCovered(old(sw.regs), t.run.x.made))
                && (!result.degraded || sw.Able() ==>
                      InStep() && FullyProgrammed(sw.hw, old(sw.regs), sw.regs, file.value))
      // After a failure the prior configuration has been replayed.
      ensures rc.RuntimeFailed? || rc.SaveFailed? ==>
                Undone(t, sw.hw, sw.Able(), file.value, Merge(file.value, delta), old(sw.regs), sw.regs)
      ensures (rc.RuntimeFailed? || rc.SaveFailed?) && old(InStep()) && sw.Able() ==> InStep()
      ensures sw.Able() ==> !rc.RuntimeFailed?
    {
      hide PassOf, Merge, Reflects, Agree, Powered, Complete, FullyProgrammed, AllCovered, ConfigModel.Valid;
      if !delta.Obj? {
        return Invalid, Idle();
      }
      if file.None? {
        return Missing, Idle();
      }
      var current := file.value;
      var merged := DeepMerge(current, delta);
      if !accepts(merged) {
        return Invalid, Idle();
      }
      ghost var r := sw.regs;
      rc, t := Commit(current, merged, Some(delta), result);
      if rc.Done? {
        DoneInStep(t.run, sw.hw, sw.Able(), current, delta, r, sw.regs, result.degraded);
      } else {
        IsUndone(t, sw.hw, sw.Able(), current, merged, Some(delta), r, sw.regs);
      }
    }

    /** config_replace_validate_save_apply. */
    method ReplaceAndApply(candidate: Json, result: ApplyResult) returns (rc: Rc, ghost t: Trace)
      requires Valid() && !result.requiredFailed
      modifies this, sw, result
      ensures Valid()
      ensures rc.Invalid? <==> !candidate.Obj? || !accepts(candidate)
      ensures rc.Missing? <==> candidate.Obj? && accepts(candidate) && old(file).None?
      ensures rc.Invalid? || rc.Missing? ==>
                file == old(file) && sw.regs == old(sw.regs) && runtimeError == old(runtimeError)
      ensures rc.Done? ==> file == Some(candidate) && !runtimeError
      ensures rc.RuntimeFailed? || rc.SaveFailed? ==> file == old(file) && runtimeError
      ensures rc.Done? && Agree(sw.hw, candidate) && (!result.degraded || sw.Able()) ==> InStep()
      ensures rc.RuntimeFailed? || rc.SaveFailed? ==>
                Undone(t, sw.hw, sw.Able(), file.value, candidate, old(sw.regs), sw.regs)
      ensures (rc.RuntimeFailed? || rc.SaveFailed?) && old(InStep()) && sw.Able() ==> InStep()
      ensures sw.Able() ==> !rc.RuntimeFailed?
    {
      hide PassOf, Reflects, Agree, Complete, ConfigModel.Valid;
      if !candidate.Obj? || !accepts(candidate) {
        return Invalid, Idle();
      }
      if file.None? {
        return Missing, Idle();
      }
      var current := file.value;
      ghost var r := sw.regs;
      rc, t := Commit(current, candidate, None, result);
      if rc.Done? {
        ReplayInStep(t.run, sw.hw, sw.Able(), candidate, r);
      } else {
        IsUndone(t, sw.hw, sw.Able(), current, candidate, None, r, sw.regs);
      }
    }

    /** Any run of transactions.  The file holds an accepted configuration
        throughout, the one the committed requests add up to; on a board where
        nothing fails the switch runs it throughout. */
    method Serve(requests: seq<Request>) returns (ghost committed: seq<Request>)
      requires Valid()
      modifies this, sw
      ensures Valid()
      ensures IsSubsequence(committed, requests)
      ensures file == After(old(file), committed)
      ensures Sound() && old(InStep()) ==> InStep()
    {
      hide Reflects, Agree, Powered, DistinctPorts, Merge, ConfigModel.Valid, PassOf, Complete, FullyProgrammed,
           AllCovered;
      committed := [];
      for i := 0 to |requests|
        invariant Valid()
        invariant IsSubsequence(committed, requests[..i])
        invariant file == After(old(file), committed)
        invariant Sound() && old(InStep()) ==> InStep()
      {
        var result := new ApplyResult();
        var rc;
        ghost var t;
        match requests[i] {
          case MergeDelta(delta) => rc, t := MergeAndApply(delta, result);
          case Replace(candidate) => rc, t := ReplaceAndApply(candidate, result);
        }
        SoundAccepts();
        if rc.Done? {
          AfterNext(old(file), committed, requests[i]);
          SubsequenceTake(committed, requests, i);
          committed := committed + [requests[i]];
        } else {
          SubsequenceSkip(committed, requests, i);
        }
      }
      assert requests[..|requests|] == requests;
    }

    /** Nothing fails on this board, and acceptance rules out a powered port
        without its section and a port under two keys. */
    ghost predicate Sound() {
      sw.Able() && forall c :: accepts(c) ==> Powered(sw.hw, c) && DistinctPorts(c)
    }

    lemma SoundAccepts()
      ensures Sound() ==> forall c :: accepts(c) ==> Powered(sw.hw, c) && Agree(sw.hw, c)
    {
      hide Powered, DistinctPorts, Agree;
      if Sound() {
        forall c | accepts(c) ensures Agree(sw.hw, c) {
          DistinctAgree(sw.hw, c);
        }
      }
    }
  }

  function Idle(): Trace {
    var p := Pass([], Stretch([], true, []));
    Trace(p, p)
  }

  lemma AppliedAble(x: Stretch, able: bool, r: Registers, s: Registers, g: Flags)
    requires Applied(x, able, r, s, g)
    ensures able ==> x.rc
  {
  }

  /** A successful delta pass. */
  lemma DoneInStep(p: Pass, hw: Hardware, able: bool, current: Json, delta: Json, r: Registers, s: Registers,
                   degraded: bool)
    requires PassOf(p, hw, able, Merge(current, delta), Some(delta)) && p.x.rc && s == Landed(r, p.x.made)
    requires !degraded ==> Complete(p)
    requires ConfigModel.Valid(current) && delta.Obj? && ConfigModel.Valid(Merge(current, delta))
    ensures Reflects(hw, r, current) && Powered(hw, Merge(current, delta)) && Agree(hw, Merge(current, delta)) ==>
              && (FullyProgrammed(hw, r, s, Merge(current, delta)) <==> AllCovered(r, p.x.made))
              && (!degraded || able ==>
                    Reflects(hw, s, Merge(current, delta)) && FullyProgrammed(hw, r, s, Merge(current, delta)))
  {
    if Reflects(hw, r, current) && Powered(hw, Merge(current, delta)) && Agree(hw, Merge(current, delta)) {
      assert able ==> Complete(p);
      assert Mergeable(hw, current, delta);
      hide PassOf, Merge, Reflects, Agree, Powered, FullyProgrammed, AllCovered, ConfigModel.Valid, Mergeable, Complete;
      DeltaPassIff(p, hw, able, current, delta, r);
      if Complete(p) {
        DeltaPass(p, hw, able, current, delta, r);
        CompleteAllCovered(r, p);
      }
    }
  }

  lemma CompleteAllCovered(r: Registers, p: Pass)
    requires Complete(p)
    ensures AllCovered(r, p.x.made)
  {
    CompleteCovered(r, p);
  }

  /** A complete full pass, from any registers. */
  lemma ReplayInStep(p: Pass, hw: Hardware, able: bool, config: Json, r: Registers)
    requires PassOf(p, hw, able, config, None)
    ensures Agree(hw, config) && (Complete(p) || able) ==> Reflects(hw, Landed(r, p.x.made), config)
  {
    assert able ==> Complete(p);
    hide PassOf, Agree, Reflects, Landed, Complete;
    if Agree(hw, config) && Complete(p) {
      FullPass(p, hw, able, config, r);
    }
  }

  // ---------------------------------------------------------- runs of requests

  datatype Request = MergeDelta(delta: Json) | Replace(candidate: Json)

  /** The file after the requests that were committed. */
  function After(start: Option<Json>, committed: seq<Request>): Option<Json>
    decreases |committed|
  {
    if committed == [] then start else
    var before := After(start, committed[..|committed| - 1]);
    match committed[|committed| - 1]
    case MergeDelta(delta) => if before.Some? then Some(Merge(before.value, delta)) else None
    case Replace(candidate) => Some(candidate)
  }

  lemma AfterNext(start: Option<Json>, committed: seq<Request>, last: Request)
    ensures After(start, committed + [last]) ==
      match last
      case MergeDelta(delta) =>
        (var before := After(start, committed);
         if before.Some? then Some(Merge(before.value, delta)) else None)
      case Replace(candidate) => Some(candidate)
  {
    assert (committed + [last])[..|committed + [last]| - 1] == committed;
    hide Merge;
  }

  /** The committed requests are requests that were made, in that order. */
  ghost predicate IsSubsequence(part: seq<Request>, whole: seq<Request>)
    decreases |whole|
  {
    if whole == [] then part == []
    else
      var init, last := whole[..|whole| - 1], whole[|whole| - 1];
      IsSubsequence(part, init) || (part != [] && part[|part| - 1] == last && IsSubsequence(part[..|part| - 1], init))
  }

  lemma SubsequenceTake(part: seq<Request>, whole: seq<Request>, i: nat)
    requires i < |whole| && IsSubsequence(part, whole[..i])
    ensures IsSubsequence(part + [whole[i]], whole[..i + 1])
  {
    assert whole[..i + 1][..|whole[..i + 1]| - 1] == whole[..i];
    assert (part + [whole[i]])[..|part + [whole[i]]| - 1] == part;
  }

  lemma SubsequenceSkip(part: seq<Request>, whole: seq<Request>, i: nat)
    requires i < |whole| && IsSubsequence(part, whole[..i])
    ensures IsSubsequence(part, whole[..i + 1])
  {
    assert whole[..i + 1][..|whole[..i + 1]| - 1] == whole[..i];
  }
}
