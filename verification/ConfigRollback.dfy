/** When replaying the current configuration puts back what a failed run
    changed. */
module ConfigRollback {
  import opened Bytes
  import opened Json
  import opened ConfigModel
  import opened ConfigReplay
  import opened ConfigOrder
  import opened ConfigApply
  import opened ConfigTransaction
  import opened ConfigValidation
  import opened ConfigExamples

  /** The target of a transaction: a replacement, or the merge with its delta. */
  predicate IsTarget(hw: Hardware, current: Json, target: Json, delta: Option<Json>) {
    && ConfigModel.Valid(current) && ConfigModel.Valid(target)
    && (delta.Some? ==> Mergeable(hw, current, delta.value) && target == Merge(current, delta.value))
  }

  /** A transaction's own pass over registers that reflect the current
      configuration, its ports in the order `was`, and a complete replay in that
      order after it because the pass failed or the file could not be saved. */
  ghost predicate RanAndReplayed(hw: Hardware, current: Json, target: Json, delta: Option<Json>, was: seq<string>,
                                 r: Registers, run: Pass, replay: Pass) {
    && ReflectsIn(hw, r, current, was)
    && PassOf(run, hw, false, target, delta)
    && PassOf(replay, hw, false, current, None) && Complete(replay) && replay.order == was
  }

  ghost predicate Restored(r: Registers, run: Pass, replay: Pass) {
    Landed(Landed(r, run.x.made), replay.x.made) == r
  }

  function AllMade(ws: seq<Write>): (log: seq<Attempt>)
    ensures |log| == |ws|
  {
    seq(|ws|, i requires 0 <= i < |ws| => Attempt(ws[i], true))
  }

  /** A pass without a loss. */
  function WholePass(hw: Hardware, config: Json, delta: Option<Json>, order: seq<string>): Pass {
    var ws := ConfigWrites(hw, config, delta, order);
    Pass(order, Stretch(ws, true, AllMade(ws)))
  }

  lemma WholePassComplete(hw: Hardware, able: bool, config: Json, delta: Option<Json>, order: seq<string>)
    requires IsOrder(order, Iterated(config, delta))
    ensures PassOf(WholePass(hw, config, delta, order), hw, able, config, delta)
    ensures Complete(WholePass(hw, config, delta, order))
  {
    hide ConfigWrites, IsOrder, Iterated;
    var ws := ConfigWrites(hw, config, delta, order);
    var made := AllMade(ws);
    assert Attempted(made) == ws;
    forall a | a in made ensures a.write in ws {
      var i :| 0 <= i < |made| && made[i] == a;
      assert ws[i] in ws;
    }
  }

  lemma {:induction false} StaysLanded(regs: Registers, log: seq<Attempt>, r: Register)
    ensures r in regs ==> r in Landed(regs, log)
    decreases |log|
  {
    if log != [] {
      StaysLanded(if log[0].ok then regs[log[0].write.reg := log[0].write.cmd] else regs, log[1..], r);
    }
  }

  lemma {:induction false} WrittenLanded(regs: Registers, ws: seq<Write>, w: Write)
    requires w in ws
    ensures w.reg in Landed(regs, AllMade(ws))
    decreases |ws|
  {
    var log := AllMade(ws);
    assert log[1..] == AllMade(ws[1..]) && log[0] == Attempt(ws[0], true);
    var next := regs[ws[0].reg := ws[0].cmd];
    if w == ws[0] {
      StaysLanded(next, log[1..], w.reg);
    } else {
      WrittenLanded(next, ws[1..], w);
    }
  }

  /** The register of a port number the configuration does not have. */
  lemma Unprogrammed(hw: Hardware, config: Json, n: nat)
    requires forall j :: Has(Member(config, "ports"), j) ==> Decimal(j) != n
    ensures !Programmed(hw, config, PortPhy(n))
  {
    hide GlobalsWrites, KeyWrites, GroupWrites, Decimal;
    if Programmed(hw, config, PortPhy(n)) {
      var w :| Programs(hw, config, w) && w.reg == PortPhy(n);
      if w in GlobalsWrites(config, None) {
        GlobalsOnce(config, None, w, w);
      } else {
        var key :| w in KeyWrites(hw, Member(config, "ports"), None, key);
        var g := KeyWritesGroup(hw, Member(config, "ports"), key, w);
      }
    }
  }

  lemma NotTouched(hw: Hardware, config: Json, order: seq<string>, r: Register)
    requires IsOrder(order, Iterated(config, None)) && !Programmed(hw, config, r)
    ensures !Touches(ConfigWrites(hw, config, None, order), r)
  {
    hide ConfigWrites, IsOrder, Iterated, Programs;
    var ws := ConfigWrites(hw, config, None, order);
    if Touches(ws, r) {
      var w :| w in ws && w.reg == r;
      WrittenIsProgrammed(hw, config, None, order, w);
    }
  }

  /** The first write of a port that the target has and the current configuration
      has not is a write of the transaction's run. */
  lemma NewPortWrite(hw: Hardware, current: Json, target: Json, delta: Option<Json>, k: string) returns (w: Write)
    requires IsTarget(hw, current, target, delta) && Has(Member(target, "ports"), k)
    requires forall j :: Has(Member(current, "ports"), j) ==> Decimal(j) != Decimal(k)
    ensures w.reg == PortPhy(Decimal(k)) && RunPrograms(hw, target, delta, w)
  {
    var ports := Member(target, "ports");
    w := Write(PortPhy(Decimal(k)), PhyValue(Member(ports, k)));
    assert w in GroupWrites(hw, Decimal(k), Member(ports, k), Phy);
    match delta {
      case None =>
        FullDue(Phy);
        assert k in Iterated(target, None) && DeltaPorts(None) == None && Mentioned(None, "ports");
        hide KeyWrites, Decimal, Merge;
        DueWritten(hw, ports, None, k, Phy, w);
      case Some(d) => NewPortInDelta(hw, current, d, k, w);
    }
    hide KeyWrites;
  }

  lemma NewPortInDelta(hw: Hardware, current: Json, d: Json, k: string, w: Write)
    requires Mergeable(hw, current, d) && Has(Member(Merge(current, d), "ports"), k)
    requires !Has(Member(current, "ports"), k)
    requires w in GroupWrites(hw, Decimal(k), Member(Member(Merge(current, d), "ports"), k), Phy)
    ensures RunPrograms(hw, Merge(current, d), Some(d), w)
  {
    var before, after := Member(current, "ports"), Member(Merge(current, d), "ports");
    MergedPorts(current, d);
    hide Merge, GroupWrites, Decimal, KeyWrites, Due, ValidPort;
    assert Has(d, "ports");
    var change := Member(d, "ports");
    MergedPort(before, change, k);
    NewPortDue(hw, Decimal(k), Member(after, k), Phy, w);
    DueWritten(hw, after, Some(change), k, Phy, w);
    assert DeltaPorts(Some(d)) == Some(change) && k in Iterated(Merge(current, d), Some(d));
  }

  /** A run that made every write of a target with a new port, and then could not
      save: a complete replay leaves the new port's register set. */
  lemma NewPortStays(hw: Hardware, current: Json, target: Json, delta: Option<Json>, was: seq<string>, k: string)
    returns (r: Registers, run: Pass, replay: Pass)
    requires IsTarget(hw, current, target, delta) && IsOrder(was, Iterated(current, None))
    requires Has(Member(target, "ports"), k)
    requires forall j :: Has(Member(current, "ports"), j) ==> Decimal(j) != Decimal(k)
    ensures RanAndReplayed(hw, current, target, delta, was, r, run, replay)
    ensures Complete(run) && replay.order == was && !Restored(r, run, replay)
    ensures PortPhy(Decimal(k)) !in r && PortPhy(Decimal(k)) in Landed(Landed(r, run.x.made), replay.x.made)
  {
    var w := NewPortWrite(hw, current, target, delta, k);
    Unprogrammed(hw, current, Decimal(k));
    hide ConfigWrites, RunPrograms, IsTarget, Decimal, Merge, IsOrder, Iterated, Complete, ReflectsIn, Programmed, Has,
         Member;
    var way := SomeOrder(Iterated(target, delta));
    InConfigWrites(hw, target, delta, way, w);
    run, replay := WholePass(hw, target, delta, way), WholePass(hw, current, None, was);
    r := WriteAll(map[], ConfigWrites(hw, current, None, was));
    WholePassComplete(hw, false, target, delta, way);
    WholePassComplete(hw, false, current, None, was);
    WholeRunReflectsIn(hw, map[], current, was);
    NotTouched(hw, current, was, w.reg);
    WriteAllOther(map[], ConfigWrites(hw, current, None, was), w.reg);
    WrittenLanded(r, ConfigWrites(hw, target, delta, way), w);
    StaysLanded(Landed(r, run.x.made), replay.x.made, w.reg);
  }

  /** Every unsuccessful transaction is undone to the last register by a complete
      replay, whatever it had written, exactly when the target names no port that
      the current configuration does not have.  Keys that spell one port number
      differently may disagree: the replay gives the last word to the same key. */
  lemma RestoredIff(hw: Hardware, current: Json, target: Json, delta: Option<Json>, was: seq<string>)
    requires IsTarget(hw, current, target, delta) && IsOrder(was, Iterated(current, None))
    ensures PortsWithin(target, current) <==>
              forall r, run, replay ::
                RanAndReplayed(hw, current, target, delta, was, r, run, replay) ==> Restored(r, run, replay)
  {
    hide Restored, Decimal, Merge, Mergeable, RanAndReplayed, ConfigModel.Valid, IsOrder, Iterated;
    if PortsWithin(target, current) {
      forall r, run, replay | RanAndReplayed(hw, current, target, delta, was, r, run, replay)
        ensures Restored(r, run, replay)
      {
        ReplayRestores(hw, current, target, delta, was, r, run, replay);
      }
    } else {
      var k :| Has(Member(target, "ports"), k)
      && forall j :: Has(Member(current, "ports"), j) ==> Decimal(j) != Decimal(k);
      var r, run, replay := NewPortStays(hw, current, target, delta, was, k);
    }
  }

  lemma {:induction false} AllLanded(regs: Registers, log: seq<Attempt>)
    requires forall a :: a in log ==> a.ok
    ensures Landed(regs, log) == WriteAll(regs, Attempted(log))
    decreases |log|
  {
    if log != [] {
      assert log[0] in log && Attempted(log)[1..] == Attempted(log[1..]);
      AllLanded(regs[log[0].write.reg := log[0].write.cmd], log[1..]);
    }
  }

  lemma ReplayRestores(hw: Hardware, current: Json, target: Json, delta: Option<Json>, was: seq<string>,
                       r: Registers, run: Pass, replay: Pass)
    requires IsTarget(hw, current, target, delta) && IsOrder(was, Iterated(current, None))
    requires PortsWithin(target, current) && RanAndReplayed(hw, current, target, delta, was, r, run, replay)
    ensures Restored(r, run, replay)
  {
    hide ReflectsIn, Landed, WriteAll, PortsWithin, ConfigModel.Valid, ConfigWrites, IsOrder, Iterated, Attempted,
         SameAt, Programmed;
    var failed := Landed(r, run.x.made);
    var after := Landed(failed, replay.x.made);
    AllLanded(failed, replay.x.made);
    WholeRunReflectsIn(hw, failed, current, was);
    SameEverywhere(after, r);
    forall reg: Register
      ensures SameAt(after, r, reg)
    {
      if Programmed(hw, current, reg) {
        ProgrammedAlike(hw, after, r, current, was, reg);
      } else {
        LeftAlone(hw, current, target, delta, was, r, run, reg);
        SameAtLinks(after, r, failed, reg);
      }
    }
  }

  /** A register the current configuration does not program is changed neither by the
      run nor by the replay. */
  lemma LeftAlone(hw: Hardware, current: Json, target: Json, delta: Option<Json>, was: seq<string>, r: Registers,
                  run: Pass, reg: Register)
    requires IsTarget(hw, current, target, delta) && IsOrder(was, Iterated(current, None))
    requires PortsWithin(target, current) && PassOf(run, hw, false, target, delta) && !Programmed(hw, current, reg)
    ensures var failed := Landed(r, run.x.made);
            SameAt(WriteAll(failed, ConfigWrites(hw, current, None, was)), failed, reg) && SameAt(failed, r, reg)
  {
    hide Landed, WriteAll, PortsWithin, ConfigModel.Valid, ConfigWrites, IsOrder, Iterated, Attempted, Programmed;
    forall a | a in run.x.made ensures a.write.reg != reg {
      WrittenIsProgrammed(hw, target, delta, run.order, a.write);
      NoNewRegister(hw, target, current, a.write);
    }
    LandedOther(r, run.x.made, reg);
    NotTouched(hw, current, was, reg);
    WriteAllOther(Landed(r, run.x.made), ConfigWrites(hw, current, None, was), reg);
  }

  // -------------------------------------------------------------- an example

  function OnePort(): Json { Obj(map["1" := PlainPort(true)]) }

  function SecondPort(): Json { Obj(map["2" := PlainPort(true)]) }

  function BothPorts(): Json { Obj(map["1" := PlainPort(true), "2" := PlainPort(true)]) }

  lemma ExamplePortsOk()
    ensures PortsOk(BOARD, OnePort()) && PortsOk(BOARD, BothPorts())
  {
    hide PlainPort, PortOk, KeyOk, Decimal;
    TwoSpellings();
    PlainPortOk(true, 1);
    PlainPortOk(true, 2);
    assert OnePort().members.Keys == {"1"} && BothPorts().members.Keys == {"1", "2"};
  }

  lemma ExampleMerge()
    ensures Merge(OnePort(), SecondPort()) == BothPorts()
  {
    assert PlainPort(true).Obj?;
    hide Merge, PlainPort;
    MergeOne(OnePort().members, "2", PlainPort(true));
    assert OnePort().members["2" := PlainPort(true)] == BothPorts().members;
  }

  lemma ExampleShape()
    ensures OnePort().Obj? && SecondPort().Obj?
    ensures Has(BothPorts(), "2") && forall j :: Has(OnePort(), j) ==> j == "1"
  {
    PlainSections(OnePort());
    hide PlainPort, PlainConfig, GroupWrites, Decimal;
  }

  /** A valid configuration with port 1 and a delta that adds port 2: when the file
      cannot be saved after the run, the complete replay leaves port 2
      programmed. */
  lemma AddedPortStays() returns (current: Json, delta: Json, r: Registers, run: Pass, replay: Pass)
    ensures Validates(BOARD, current) && Validates(BOARD, Merge(current, delta)) && Mergeable(HW, current, delta)
    ensures RanAndReplayed(HW, current, Merge(current, delta), Some(delta), replay.order, r, run, replay)
    ensures !Restored(r, run, replay)
  {
    hide Merge, PlainConfig, OnePort, SecondPort, BothPorts, Decimal, Agree, RanAndReplayed, Restored,
         ConfigModel.Valid, Validates, PortsOk, Powered;
    current, delta := PlainConfig(OnePort()), Obj(map["ports" := SecondPort()]);
    ExampleShape();
    ExampleMerge();
    MergePorts(OnePort(), SecondPort(), BothPorts());
    ExamplePortsOk();
    PlainOk(OnePort());
    PlainOk(BothPorts());
    PlainSections(OnePort());
    PlainSections(BothPorts());
    TwoSpellings();
    var was := SomeOrder(Iterated(current, None));
    r, run, replay := NewPortStays(HW, current, Merge(current, delta), Some(delta), was, "2");
  }
}
