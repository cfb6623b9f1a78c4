/** The order json-c keeps the ports in: when a delta's run equals full
    programming for one given order of the delta and of the configuration. */
module ConfigOrder {
  import opened Bytes
  import opened Json
  import opened ConfigModel
  import opened ConfigReplay

  /** The last key in the order that names port n and applies group g; without a
      delta every group applies. */
  function LastDue(ports: Json, delta: Option<Json>, order: seq<string>, n: nat, g: Group): (r: Option<string>)
    ensures r.Some? ==>
              r.value in order && Has(ports, r.value) && Decimal(r.value) == n && Due(Changed(delta, r.value), g)
    decreases |order|
  {
    if order == [] then None else
    var key := order[|order| - 1];
    if Has(ports, key) && Decimal(key) == n && Due(Changed(delta, key), g) then Some(key)
    else LastDue(ports, delta, order[..|order| - 1], n, g)
  }

  lemma {:induction false} NoneDue(ports: Json, delta: Option<Json>, order: seq<string>, n: nat, g: Group, key: string)
    requires LastDue(ports, delta, order, n, g).None? && key in order && Has(ports, key) && Decimal(key) == n
    ensures !Due(Changed(delta, key), g)
    decreases |order|
  {
    hide Due, Has, Decimal, Changed;
    if key != order[|order| - 1] {
      NoneDue(ports, delta, order[..|order| - 1], n, g, key);
    }
  }

  /** What a key of the ports section asks of a group. */
  function Asks(hw: Hardware, ports: Json, key: Option<string>, n: nat, g: Group): seq<Write> {
    if key.None? then [] else GroupWrites(hw, n, Member(ports, key.value), g)
  }

  ghost predicate ReadsAll(regs: Registers, ws: seq<Write>) {
    forall w :: w in ws ==> Reads(regs, w)
  }

  // ------------------------------------------------------- the last key wins

  /** One key of the loop: it sets the group's registers when it names the port
      and applies the group, and leaves them alone otherwise. */
  lemma KeyEffect(hw: Hardware, regs: Registers, ports: Json, delta: Option<Json>, key: string, n: nat, g: Group)
    ensures var after := WriteAll(regs, KeyWrites(hw, ports, delta, key));
            if Has(ports, key) && Decimal(key) == n && Due(Changed(delta, key), g)
            then ReadsAll(after, GroupWrites(hw, n, Member(ports, key), g))
            else forall r :: OwnerOf(r) == PortGroup(n, g) ==> SameAt(after, regs, r)
  {
    hide GroupWrites, Decimal, Due, KeyWrites, OwnerOf;
    var ws := KeyWrites(hw, ports, delta, key);
    KeyConsistent(hw, ports, delta, key);
    if Has(ports, key) && Decimal(key) == n && Due(Changed(delta, key), g) {
      forall w | w in GroupWrites(hw, n, Member(ports, key), g) ensures Reads(WriteAll(regs, ws), w) {
        DueWritten(hw, ports, delta, key, g, w);
        WriteAllReads(regs, ws, w);
      }
    } else {
      forall r | OwnerOf(r) == PortGroup(n, g) ensures SameAt(WriteAll(regs, ws), regs, r) {
        if Touches(ws, r) {
          var w :| w in ws && w.reg == r;
          var h := DueGroup(hw, ports, delta, key, w);
        }
        WriteAllOther(regs, ws, r);
      }
    }
  }

  lemma DueGroup(hw: Hardware, ports: Json, delta: Option<Json>, key: string, w: Write) returns (g: Group)
    requires w in KeyWrites(hw, ports, delta, key)
    ensures Has(ports, key) && Due(Changed(delta, key), g) && OwnerOf(w.reg) == PortGroup(Decimal(key), g)
  {
    hide GroupWrites, Decimal, Due, PortWrites, OwnerOf;
    InPortWrites(hw, Decimal(key), Member(ports, key), Changed(delta, key), w);
    g :| Due(Changed(delta, key), g) && w in GroupWrites(hw, Decimal(key), Member(ports, key), g);
    GroupOwns(hw, Decimal(key), Member(ports, key), g, w);
  }

  lemma KeyConsistent(hw: Hardware, ports: Json, delta: Option<Json>, key: string)
    ensures Consistent(KeyWrites(hw, ports, delta, key))
  {
    hide KeyWrites;
    KeyOnce(hw, ports, key);
    forall w | w in KeyWrites(hw, ports, delta, key) ensures w in KeyWrites(hw, ports, None, key) {
      PortRunOfFull(hw, ports, delta, key, w);
    }
  }

  /** After the loop over the ports each group's registers are as the last due
      key asks, or as before when none is due. */
  lemma {:induction false} PortsEffect(hw: Hardware, regs: Registers, ports: Json, delta: Option<Json>,
                                       order: seq<string>, n: nat, g: Group)
    ensures var after, last := WriteAll(regs, PortsWrites(hw, ports, delta, order)), LastDue(ports, delta, order, n, g);
            if last.Some? then ReadsAll(after, GroupWrites(hw, n, Member(ports, last.value), g))
            else forall r :: OwnerOf(r) == PortGroup(n, g) ==> SameAt(after, regs, r)
    decreases |order|
  {
    hide GroupWrites, Decimal, Due, KeyWrites, Has, OwnerOf, WriteAll;
    if order == [] {
      NoPorts(hw, regs, ports, delta);
    } else {
      var init, key := order[..|order| - 1], order[|order| - 1];
      assert order == init + [key];
      PortsEffect(hw, regs, ports, delta, init, n, g);
      PortsWritesLast(hw, ports, delta, init, key);
      var before := WriteAll(regs, PortsWrites(hw, ports, delta, init));
      WriteAllAppend(regs, PortsWrites(hw, ports, delta, init), KeyWrites(hw, ports, delta, key));
      KeyEffect(hw, before, ports, delta, key, n, g);
      var last := LastDue(ports, delta, init, n, g);
      if last.Some? {
        Carried(hw, before, WriteAll(before, KeyWrites(hw, ports, delta, key)), n, Member(ports, last.value), g);
      }
    }
  }

  lemma NoPorts(hw: Hardware, regs: Registers, ports: Json, delta: Option<Json>)
    ensures PortsWrites(hw, ports, delta, []) == [] && WriteAll(regs, []) == regs
  {
  }

  lemma Carried(hw: Hardware, before: Registers, after: Registers, n: nat, p: Json, g: Group)
    requires ReadsAll(before, GroupWrites(hw, n, p, g))
    ensures (forall r :: OwnerOf(r) == PortGroup(n, g) ==> SameAt(after, before, r)) ==>
              ReadsAll(after, GroupWrites(hw, n, p, g))
  {
    hide GroupWrites, OwnerOf;
    forall w | w in GroupWrites(hw, n, p, g) ensures OwnerOf(w.reg) == PortGroup(n, g) {
      GroupOwns(hw, n, p, g, w);
    }
  }

  // ------------------------------------------------------------ a whole run

  lemma GlobalsConsistent(config: Json, delta: Option<Json>)
    ensures Consistent(GlobalsWrites(config, delta))
  {
    hide GlobalsWrites;
    forall v, w | v in GlobalsWrites(config, delta) && w in GlobalsWrites(config, delta) && v.reg == w.reg
      ensures v == w
    {
      GlobalsOnce(config, delta, v, w);
    }
  }

  /** The order the port loop of a run uses; nothing without a ports section. */
  function RunOrder(delta: Option<Json>, order: seq<string>): seq<string> {
    if Mentioned(delta, "ports") then order else []
  }

  /** A run sets the global registers and then the ports. */
  lemma RunSplit(hw: Hardware, regs: Registers, config: Json, delta: Option<Json>, order: seq<string>)
    ensures WriteAll(regs, ConfigWrites(hw, config, delta, order))
         == WriteAll(WriteAll(regs, GlobalsWrites(config, delta)),
                     PortsWrites(hw, Member(config, "ports"), DeltaPorts(delta), RunOrder(delta, order)))
  {
    hide GlobalsWrites, PortsWrites, Mentioned, WriteAll;
    NoPorts(hw, regs, Member(config, "ports"), DeltaPorts(delta));
    WriteAllAppend(regs, GlobalsWrites(config, delta),
                   PortsWrites(hw, Member(config, "ports"), DeltaPorts(delta), RunOrder(delta, order)));
  }

  /** The registers of a port's group after a run. */
  lemma RunPort(hw: Hardware, regs: Registers, config: Json, delta: Option<Json>, order: seq<string>, n: nat, g: Group)
    ensures var after := WriteAll(regs, ConfigWrites(hw, config, delta, order));
            var last := LastDue(Member(config, "ports"), DeltaPorts(delta), RunOrder(delta, order), n, g);
            if last.Some? then ReadsAll(after, GroupWrites(hw, n, Member(Member(config, "ports"), last.value), g))
            else forall r :: OwnerOf(r) == PortGroup(n, g) ==> SameAt(after, regs, r)
  {
    hide GroupWrites, GlobalsWrites, PortsWrites, ConfigWrites, LastDue, OwnerOf, RunOrder, Member, WriteAll;
    var globals := GlobalsWrites(config, delta);
    RunSplit(hw, regs, config, delta, order);
    PortsEffect(hw, WriteAll(regs, globals), Member(config, "ports"), DeltaPorts(delta), RunOrder(delta, order), n, g);
    forall r | OwnerOf(r) == PortGroup(n, g) ensures SameAt(WriteAll(regs, globals), regs, r) {
      GlobalsElsewhere(regs, config, delta, r);
    }
  }

  lemma GlobalsElsewhere(regs: Registers, config: Json, delta: Option<Json>, r: Register)
    requires OwnerOf(r) != Global
    ensures SameAt(WriteAll(regs, GlobalsWrites(config, delta)), regs, r)
  {
    hide GlobalsWrites, OwnerOf;
    if Touches(GlobalsWrites(config, delta), r) {
      var w :| w in GlobalsWrites(config, delta) && w.reg == r;
      GlobalsOnce(config, delta, w, w);
    }
    WriteAllOther(regs, GlobalsWrites(config, delta), r);
  }

  /** A global register after a run. */
  lemma RunGlobal(hw: Hardware, regs: Registers, config: Json, delta: Option<Json>, order: seq<string>, r: Register)
    requires OwnerOf(r) == Global
    ensures SameAt(WriteAll(regs, ConfigWrites(hw, config, delta, order)), WriteAll(regs, GlobalsWrites(config, delta)),
                   r)
  {
    hide GlobalsWrites, PortsWrites, OwnerOf, RunOrder, Member;
    RunSplit(hw, regs, config, delta, order);
    var ports := PortsWrites(hw, Member(config, "ports"), DeltaPorts(delta), RunOrder(delta, order));
    if Touches(ports, r) {
      var w :| w in ports && w.reg == r;
      PortOwned(hw, Member(config, "ports"), DeltaPorts(delta), RunOrder(delta, order), w);
    }
    WriteAllOther(WriteAll(regs, GlobalsWrites(config, delta)), ports, r);
  }

  lemma PortOwned(hw: Hardware, ports: Json, delta: Option<Json>, order: seq<string>, w: Write)
    requires w in PortsWrites(hw, ports, delta, order)
    ensures OwnerOf(w.reg) != Global
  {
    hide PortsWrites, KeyWrites, OwnerOf;
    InPortsWrites(hw, ports, delta, order, w);
    var key :| key in order && w in KeyWrites(hw, ports, delta, key);
    var g := DueGroup(hw, ports, delta, key, w);
  }

  // ------------------------------------------------- the condition for one order

  /** The registers as full programming of the configuration, its ports in this
      order, leaves them. */
  ghost predicate ReflectsIn(hw: Hardware, regs: Registers, config: Json, was: seq<string>) {
    && ReadsAll(regs, GlobalsWrites(config, None))
    && forall n, g ::
         ReadsAll(regs, Asks(hw, Member(config, "ports"), LastDue(Member(config, "ports"), None, was, n, g), n, g))
  }

  /** For a port number and a group: the last key of the whole configuration asks
      for what the last due key of the delta's run asks for, or, when none is
      due, for what the last key of the current configuration asked for. */
  predicate LastWordsAgree(hw: Hardware, current: Json, merged: Json, delta: Json,
                           was: seq<string>, some: seq<string>, all: seq<string>, n: nat, g: Group) {
    var before, after := Member(current, "ports"), Member(merged, "ports");
    var whole := LastDue(after, None, all, n, g);
    var due := LastDue(after, DeltaPorts(Some(delta)), RunOrder(Some(delta), some), n, g);
    whole.Some? ==>
      Asks(hw, after, whole, n, g) == if due.Some? then Asks(hw, after, due, n, g)
                                      else Asks(hw, before, LastDue(before, None, was, n, g), n, g)
  }

  /** The two runs of one port's group read alike exactly when the last words
      agree. */
  lemma GroupReadsAlike(hw: Hardware, a: Registers, b: Registers, n: nat, p: Json, q: Json, g: Group)
    requires ReadsAll(a, GroupWrites(hw, n, p, g)) && ReadsAll(b, GroupWrites(hw, n, q, g))
    ensures (forall w :: w in GroupWrites(hw, n, p, g) ==> SameAt(a, b, w.reg))
       <==> GroupWrites(hw, n, p, g) == GroupWrites(hw, n, q, g)
  {
    GroupShape(hw, n, p, q, g);
    hide GroupWrites;
    var v, w := GroupWrites(hw, n, p, g), GroupWrites(hw, n, q, g);
    if forall x :: x in v ==> SameAt(a, b, x.reg) {
      forall i | 0 <= i < |v| ensures v[i] == w[i] {
        assert v[i] in v && w[i] in w;
      }
    }
  }

  lemma GroupShape(hw: Hardware, n: nat, p: Json, q: Json, g: Group)
    ensures var v, w := GroupWrites(hw, n, p, g), GroupWrites(hw, n, q, g);
            |v| == |w| && forall i :: 0 <= i < |v| ==> v[i].reg == w[i].reg
  {
    hide PhyValue, VlanValue, StpValue, Member, AsBool, AsString;
  }

  /** A port's group has all its registers written, or the port has none. */
  lemma OwnedRegister(hw: Hardware, n: nat, p: Json, g: Group, r: Register)
    requires OwnerOf(r) == PortGroup(n, g) && GroupWrites(hw, n, p, g) != []
    ensures Touches(GroupWrites(hw, n, p, g), r)
  {
    hide PhyValue, VlanValue, StpValue, Member, AsBool, AsString;
    var ws := GroupWrites(hw, n, p, g);
    assert ws[0] in ws && (g == Poe ==> ws[1] in ws);
  }

  /** A group without registers is never written. */
  lemma EmptyGroup(hw: Hardware, regs: Registers, config: Json, delta: Option<Json>, order: seq<string>,
                   n: nat, p: Json, g: Group, r: Register)
    requires OwnerOf(r) == PortGroup(n, g) && GroupWrites(hw, n, p, g) == []
    ensures SameAt(WriteAll(regs, ConfigWrites(hw, config, delta, order)), regs, r)
  {
    hide GroupWrites, OwnerOf, ConfigWrites;
    var ws := ConfigWrites(hw, config, delta, order);
    if Touches(ws, r) {
      var w :| w in ws && w.reg == r;
      NotInEmpty(hw, config, delta, order, n, p, g, w);
    }
    WriteAllOther(regs, ws, r);
  }

  lemma NotInEmpty(hw: Hardware, config: Json, delta: Option<Json>, order: seq<string>, n: nat, p: Json, g: Group,
                   w: Write)
    requires OwnerOf(w.reg) == PortGroup(n, g) && GroupWrites(hw, n, p, g) == []
    ensures w !in ConfigWrites(hw, config, delta, order)
  {
    hide GroupWrites, OwnerOf, GlobalsWrites, PortsWrites, KeyWrites, PortWrites, Decimal, Due, Member;
    if w in GlobalsWrites(config, delta) {
      GlobalsOnce(config, delta, w, w);
    }
    var ports := Member(config, "ports");
    InPortsWrites(hw, ports, DeltaPorts(delta), order, w);
    if w in PortsWrites(hw, ports, DeltaPorts(delta), order) {
      var key :| key in order && w in KeyWrites(hw, ports, DeltaPorts(delta), key);
      PortRunOfFull(hw, ports, DeltaPorts(delta), key, w);
      var h := KeyWritesGroup(hw, ports, key, w);
      GroupShape(hw, n, p, Member(ports, key), g);
    }
  }

  /** A key that is due in the delta's run is a key of the whole run. */
  lemma DueIsWhole(current: Json, delta: Json, some: seq<string>, all: seq<string>, n: nat, g: Group)
    requires IsOrder(all, Iterated(Merge(current, delta), None))
    ensures var after := Member(Merge(current, delta), "ports");
            LastDue(after, DeltaPorts(Some(delta)), RunOrder(Some(delta), some), n, g).Some? ==>
              LastDue(after, None, all, n, g).Some?
  {
    hide Merge, Due, Decimal, RunOrder;
    var after := Member(Merge(current, delta), "ports");
    var due := LastDue(after, DeltaPorts(Some(delta)), RunOrder(Some(delta), some), n, g);
    if due.Some? && LastDue(after, None, all, n, g).None? {
      FullDue(g);
      NoneDue(after, None, all, n, g, due.value);
    }
  }

  /** A port's group that the delta does not reach: the key that has the last
      word asks for what it asked before the merge. */
  lemma UnreachedGroup(hw: Hardware, current: Json, delta: Json, was: seq<string>, some: seq<string>, k: string,
                       n: nat, g: Group)
    requires Mergeable(hw, current, delta)
    requires IsOrder(was, Iterated(current, None)) && IsOrder(some, Iterated(Merge(current, delta), Some(delta)))
    requires var after := Member(Merge(current, delta), "ports");
             && Has(after, k) && Decimal(k) == n && GroupWrites(hw, n, Member(after, k), g) != []
             && LastDue(after, DeltaPorts(Some(delta)), RunOrder(Some(delta), some), n, g).None?
    ensures LastDue(Member(current, "ports"), None, was, n, g).Some?
  {
    var merged := Merge(current, delta);
    MergedPorts(current, delta);
    assert Iterated(merged, Some(delta)) == if Member(delta, "ports").Obj? then Member(delta, "ports").members.Keys
           else {};
    hide Merge, Due, Decimal, GroupWrites, ValidPort, KeyWrites, OwnerOf;
    var before, after := Member(current, "ports"), Member(merged, "ports");
    var w := GroupWrites(hw, n, Member(after, k), g)[0];
    FullDue(g);
    DueWritten(hw, after, None, k, g, w);
    if Has(delta, "ports") {
      var change := Member(delta, "ports");
      if Has(change, k) {
        NoneDue(after, Some(change), some, n, g, k);
        NotDueNotWritten(hw, after, change, k, g, w);
      }
      SkippedPort(hw, before, change, k, w);
    }
    var h := KeyWritesGroup(hw, before, k, w);
    if LastDue(before, None, was, n, g).None? {
      NoneDue(before, None, was, n, g, k);
    }
  }

  lemma NotDueNotWritten(hw: Hardware, ports: Json, change: Json, k: string, g: Group, w: Write)
    requires Has(ports, k) && w in GroupWrites(hw, Decimal(k), Member(ports, k), g) && !Due(Changed(Some(change), k), g)
    ensures w !in KeyWrites(hw, ports, Some(change), k)
  {
    hide GroupWrites, Decimal, Due, KeyWrites, OwnerOf;
    GroupOwns(hw, Decimal(k), Member(ports, k), g, w);
    if w in KeyWrites(hw, ports, Some(change), k) {
      var h := DueGroup(hw, ports, Some(change), k, w);
    }
  }

  // --------------------------------------------------------- the two runs compared

  /** Everything the comparison starts from. */
  ghost predicate Setting(hw: Hardware, regs: Registers, current: Json, delta: Json,
                          was: seq<string>, some: seq<string>, all: seq<string>) {
    && Mergeable(hw, current, delta) && ReflectsIn(hw, regs, current, was)
    && IsOrder(was, Iterated(current, None))
    && IsOrder(some, Iterated(Merge(current, delta), Some(delta)))
    && IsOrder(all, Iterated(Merge(current, delta), None))
  }

  function DeltaRun(hw: Hardware, regs: Registers, current: Json, delta: Json, some: seq<string>): Registers {
    WriteAll(regs, ConfigWrites(hw, Merge(current, delta), Some(delta), some))
  }

  function WholeRun(hw: Hardware, regs: Registers, current: Json, delta: Json, all: seq<string>): Registers {
    WriteAll(regs, ConfigWrites(hw, Merge(current, delta), None, all))
  }

  /** The registers of one port's group are alike exactly when the last words
      agree. */
  lemma GroupAlikeIff(hw: Hardware, regs: Registers, current: Json, delta: Json,
                      was: seq<string>, some: seq<string>, all: seq<string>, n: nat, g: Group)
    requires Setting(hw, regs, current, delta, was, some, all)
    ensures (forall r :: OwnerOf(r) == PortGroup(n, g) ==>
              SameAt(DeltaRun(hw, regs, current, delta, some), WholeRun(hw, regs, current, delta, all), r))
       <==> LastWordsAgree(hw, current, Merge(current, delta), delta, was, some, all, n, g)
  {
    hide Merge, Mergeable, GroupWrites, ConfigWrites, LastDue, RunOrder, OwnerOf, IsOrder, Iterated, WriteAll, Member,
         Has, SameAt;
    var merged := Merge(current, delta);
    var before, after := Member(current, "ports"), Member(merged, "ports");
    var a, b := DeltaRun(hw, regs, current, delta, some), WholeRun(hw, regs, current, delta, all);
    var whole := LastDue(after, None, all, n, g);
    var due := LastDue(after, DeltaPorts(Some(delta)), RunOrder(Some(delta), some), n, g);
    var last := LastDue(before, None, was, n, g);
    assert RunOrder(None, all) == all by { Unfolded(all); }
    RunPort(hw, regs, merged, Some(delta), some, n, g);
    RunPort(hw, regs, merged, None, all, n, g);
    DueIsWhole(current, delta, some, all, n, g);
    if whole.None? {
      forall r | OwnerOf(r) == PortGroup(n, g) ensures SameAt(a, b, r) {
        SameAtJoins(a, regs, b, r);
      }
    } else if GroupWrites(hw, n, Member(after, whole.value), g) == [] {
      EmptyAsks(hw, n, g, Member(after, whole.value));
      forall r | OwnerOf(r) == PortGroup(n, g) ensures SameAt(a, b, r) {
        EmptyGroup(hw, regs, merged, Some(delta), some, n, Member(after, whole.value), g, r);
        EmptyGroup(hw, regs, merged, None, all, n, Member(after, whole.value), g, r);
        SameAtJoins(a, regs, b, r);
      }
    } else if due.Some? {
      PairAlike(hw, a, b, n, Member(after, due.value), Member(after, whole.value), g);
    } else {
      UnreachedGroup(hw, current, delta, was, some, whole.value, n, g);
      assert ReadsAll(regs, Asks(hw, before, last, n, g));
      Carried(hw, regs, a, n, Member(before, last.value), g);
      PairAlike(hw, a, b, n, Member(before, last.value), Member(after, whole.value), g);
    }
  }

  lemma Unfolded(all: seq<string>)
    ensures RunOrder(None, all) == all
  {
  }

  lemma SameAtJoins(a: Registers, b: Registers, c: Registers, r: Register)
    ensures SameAt(a, b, r) && SameAt(c, b, r) ==> SameAt(a, c, r)
  {
  }

  lemma EmptyAsks(hw: Hardware, n: nat, g: Group, p: Json)
    requires GroupWrites(hw, n, p, g) == []
    ensures forall ports, key :: Asks(hw, ports, key, n, g) == []
  {
    hide GroupWrites;
    forall ports, key ensures Asks(hw, ports, key, n, g) == [] {
      if key.Some? {
        GroupShape(hw, n, p, Member(ports, key.value), g);
      }
    }
  }

  lemma PairAlike(hw: Hardware, a: Registers, b: Registers, n: nat, p: Json, q: Json, g: Group)
    requires ReadsAll(a, GroupWrites(hw, n, p, g)) && ReadsAll(b, GroupWrites(hw, n, q, g))
    requires GroupWrites(hw, n, q, g) != []
    ensures (forall r :: OwnerOf(r) == PortGroup(n, g) ==> SameAt(a, b, r)) <==>
              GroupWrites(hw, n, q, g) == GroupWrites(hw, n, p, g)
  {
    hide GroupWrites, OwnerOf, SameAt;
    GroupShape(hw, n, p, q, g);
    GroupReadsAlike(hw, a, b, n, p, q, g);
    var ws := GroupWrites(hw, n, p, g);
    forall w | w in ws ensures OwnerOf(w.reg) == PortGroup(n, g) {
      GroupOwns(hw, n, p, g, w);
    }
    forall r | OwnerOf(r) == PortGroup(n, g) ensures Touches(ws, r) {
      OwnedRegister(hw, n, p, g, r);
    }
  }

  /** The global registers are alike whatever the order. */
  lemma GlobalAlike(hw: Hardware, regs: Registers, current: Json, delta: Json,
                    was: seq<string>, some: seq<string>, all: seq<string>, r: Register)
    requires Setting(hw, regs, current, delta, was, some, all) && OwnerOf(r) == Global
    ensures SameAt(DeltaRun(hw, regs, current, delta, some), WholeRun(hw, regs, current, delta, all), r)
  {
    var merged := Merge(current, delta);
    assert current.Obj? && delta.Obj?;
    hide Merge, Mergeable, ConfigWrites, GlobalsWrites, OwnerOf, IsOrder, Iterated;
    var v, w := GlobalsWrites(merged, Some(delta)), GlobalsWrites(merged, None);
    RunGlobal(hw, regs, merged, Some(delta), some, r);
    RunGlobal(hw, regs, merged, None, all, r);
    GlobalsConsistent(merged, Some(delta));
    GlobalsConsistent(merged, None);
    forall x | x in v ensures x in w {
      GlobalsSkip(merged, delta, x);
    }
    if Touches(w, r) {
      var x :| x in w && x.reg == r;
      WriteAllReads(regs, w, x);
      if Touches(v, r) {
        var y :| y in v && y.reg == r;
        WriteAllReads(regs, v, y);
      } else {
        SkippedGlobal(current, delta, x);
        WriteAllOther(regs, v, r);
      }
    } else {
      WriteAllOther(regs, w, r);
      WriteAllOther(regs, v, r);
    }
  }

  /** For given orders of the ports in the current document, in the delta and in
      the merged document: the delta's run equals full programming exactly when
      for every port number and group the last words agree. */
  lemma FixedOrderIff(hw: Hardware, regs: Registers, current: Json, delta: Json,
                      was: seq<string>, some: seq<string>, all: seq<string>)
    requires Setting(hw, regs, current, delta, was, some, all)
    ensures SameAs(hw, regs, Merge(current, delta), delta, some, all)
       <==> forall n, g :: LastWordsAgree(hw, current, Merge(current, delta), delta, was, some, all, n, g)
  {
    hide Merge, Setting, ConfigWrites, WriteAll, LastWordsAgree, OwnerOf, SameAt;
    var a, b := DeltaRun(hw, regs, current, delta, some), WholeRun(hw, regs, current, delta, all);
    SameEverywhere(a, b);
    forall n, g
      ensures (forall r :: OwnerOf(r) == PortGroup(n, g) ==> SameAt(a, b, r))
         <==> LastWordsAgree(hw, current, Merge(current, delta), delta, was, some, all, n, g)
    {
      GroupAlikeIff(hw, regs, current, delta, was, some, all, n, g);
    }
    forall r | OwnerOf(r) == Global ensures SameAt(a, b, r) {
      GlobalAlike(hw, regs, current, delta, was, some, all, r);
    }
    forall r: Register ensures OwnerOf(r) == Global || exists n, g :: OwnerOf(r) == PortGroup(n, g) {
      Owned(r);
    }
  }

  lemma Owned(r: Register)
    ensures OwnerOf(r) == Global || exists n, g :: OwnerOf(r) == PortGroup(n, g)
  {
    hide OwnerOf;
    match OwnerOf(r)
    case Global =>
    case PortGroup(n, g) => assert OwnerOf(r) == PortGroup(n, g);
  }

  /** Registers that reflect a configuration do so in every order. */
  lemma ReflectsInAny(hw: Hardware, regs: Registers, config: Json, was: seq<string>)
    requires Reflects(hw, regs, config)
    ensures ReflectsIn(hw, regs, config, was)
  {
    hide GlobalsWrites, LastDue, GroupWrites, KeyWrites, Member, Decimal, Has, Due;
    var ports := Member(config, "ports");
    forall n, g ensures ReadsAll(regs, Asks(hw, ports, LastDue(ports, None, was, n, g), n, g)) {
      var last := LastDue(ports, None, was, n, g);
      if last.Some? {
        forall w | w in GroupWrites(hw, n, Member(ports, last.value), g) ensures Reads(regs, w) {
          DueWritten(hw, ports, None, last.value, g, w);
          assert Programs(hw, config, w);
        }
      }
    }
  }

  /** Full programming in an order leaves the registers reflecting the
      configuration in that order, so the comparison applies again. */
  lemma WholeRunReflectsIn(hw: Hardware, regs: Registers, config: Json, was: seq<string>)
    ensures ReflectsIn(hw, WriteAll(regs, ConfigWrites(hw, config, None, was)), config, was)
  {
    hide GlobalsWrites, ConfigWrites, LastDue, GroupWrites, Member, WriteAll, OwnerOf, SameAt;
    var after := WriteAll(regs, ConfigWrites(hw, config, None, was));
    var ports := Member(config, "ports");
    Unfolded(was);
    forall n, g ensures ReadsAll(after, Asks(hw, ports, LastDue(ports, None, was, n, g), n, g)) {
      RunPort(hw, regs, config, None, was, n, g);
    }
    forall w | w in GlobalsWrites(config, None) ensures Reads(after, w) {
      GlobalRead(hw, regs, config, was, w);
    }
  }

  lemma GlobalRead(hw: Hardware, regs: Registers, config: Json, was: seq<string>, w: Write)
    requires w in GlobalsWrites(config, None)
    ensures Reads(WriteAll(regs, ConfigWrites(hw, config, None, was)), w)
  {
    hide GlobalsWrites, ConfigWrites, OwnerOf;
    GlobalsOnce(config, None, w, w);
    GlobalsConsistent(config, None);
    WriteAllReads(regs, GlobalsWrites(config, None), w);
    RunGlobal(hw, regs, config, None, was, w.reg);
  }

  /** Two register files that reflect a configuration in one order are alike
      wherever it programs anything. */
  lemma ProgrammedAlike(hw: Hardware, a: Registers, b: Registers, config: Json, was: seq<string>, r: Register)
    requires IsOrder(was, Iterated(config, None)) && Programmed(hw, config, r)
    requires ReflectsIn(hw, a, config, was) && ReflectsIn(hw, b, config, was)
    ensures SameAt(a, b, r)
  {
    hide GlobalsWrites, KeyWrites, GroupWrites, Decimal, OwnerOf, LastDue;
    var ports := Member(config, "ports");
    var w :| Programs(hw, config, w) && w.reg == r;
    if w !in GlobalsWrites(config, None) {
      var key :| w in KeyWrites(hw, ports, None, key);
      var g := KeyWritesGroup(hw, ports, key, w);
      var n := Decimal(key);
      var last := LastDue(ports, None, was, n, g);
      FullDue(g);
      if last.None? {
        NoneDue(ports, None, was, n, g, key);
      }
      GroupShape(hw, n, Member(ports, key), Member(ports, last.value), g);
      OwnedRegister(hw, n, Member(ports, last.value), g, r);
      assert ReadsAll(a, Asks(hw, ports, last, n, g)) && ReadsAll(b, Asks(hw, ports, last, n, g));
    }
  }

  // ----------------------------------------------------------- writes that were lost

  /** What the last attempt at a register was to write. */
  function LastTried(log: seq<Attempt>, r: Register): Option<Command>
    decreases |log|
  {
    if log == [] then None else
    var later := LastTried(log[1..], r);
    if later.Some? then later else if log[0].write.reg == r then Some(log[0].write.cmd) else None
  }

  /** What the last attempt that succeeded wrote. */
  function LastMade(log: seq<Attempt>, r: Register): Option<Command>
    decreases |log|
  {
    if log == [] then None else
    var later := LastMade(log[1..], r);
    if later.Some? then later else if log[0].ok && log[0].write.reg == r then Some(log[0].write.cmd) else None
  }

  function Held(regs: Registers, r: Register): Option<Command> {
    if r in regs then Some(regs[r]) else None
  }

  /** The register ends with what its last attempt was to write, made or not. */
  predicate Recovered(regs: Registers, log: seq<Attempt>, r: Register) {
    var tried, made := LastTried(log, r), LastMade(log, r);
    tried.Some? ==> tried == if made.Some? then made else Held(regs, r)
  }

  lemma {:induction false} LandedHeld(regs: Registers, log: seq<Attempt>, r: Register)
    ensures Held(Landed(regs, log), r) == if LastMade(log, r).Some? then LastMade(log, r) else Held(regs, r)
    decreases |log|
  {
    if log != [] {
      LandedHeld(if log[0].ok then regs[log[0].write.reg := log[0].write.cmd] else regs, log[1..], r);
    }
  }

  lemma {:induction false} WrittenHeld(regs: Registers, log: seq<Attempt>, r: Register)
    ensures Held(WriteAll(regs, Attempted(log)), r) ==
            if LastTried(log, r).Some? then LastTried(log, r) else Held(regs, r)
    decreases |log|
  {
    if log != [] {
      assert Attempted(log)[1..] == Attempted(log[1..]);
      WrittenHeld(regs[log[0].write.reg := log[0].write.cmd], log[1..], r);
    }
  }

  lemma {:induction false} MadeWasTried(log: seq<Attempt>, r: Register)
    ensures LastMade(log, r).Some? ==> LastTried(log, r).Some?
    decreases |log|
  {
    if log != [] {
      MadeWasTried(log[1..], r);
    }
  }

  lemma LossAt(regs: Registers, log: seq<Attempt>, r: Register)
    ensures SameAt(Landed(regs, log), WriteAll(regs, Attempted(log)), r) <==> Recovered(regs, log, r)
  {
    LandedHeld(regs, log, r);
    WrittenHeld(regs, log, r);
    MadeWasTried(log, r);
    hide Landed, WriteAll, LastTried, LastMade, Attempted;
  }

  /** A delta's run that lost some of its writes equals full programming, in the
      given orders, exactly when every register ends with what the last attempt at
      it was to write. */
  lemma LossyFixedOrderIff(hw: Hardware, regs: Registers, current: Json, delta: Json,
                           was: seq<string>, some: seq<string>, all: seq<string>, log: seq<Attempt>)
    requires Setting(hw, regs, current, delta, was, some, all)
    requires forall n, g :: LastWordsAgree(hw, current, Merge(current, delta), delta, was, some, all, n, g)
    requires Attempted(log) == ConfigWrites(hw, Merge(current, delta), Some(delta), some)
    ensures Landed(regs, log) == WholeRun(hw, regs, current, delta, all) <==> forall r :: Recovered(regs, log, r)
  {
    hide Setting, LastWordsAgree, Merge, ConfigWrites, WriteAll, Landed, Recovered, SameAt;
    FixedOrderIff(hw, regs, current, delta, was, some, all);
    var whole := WholeRun(hw, regs, current, delta, all);
    assert whole == WriteAll(regs, Attempted(log));
    SameEverywhere(Landed(regs, log), whole);
    forall r: Register
      ensures SameAt(Landed(regs, log), whole, r) <==> Recovered(regs, log, r)
    {
      LossAt(regs, log, r);
    }
  }
}
