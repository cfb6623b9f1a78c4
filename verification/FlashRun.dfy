/** The order of work of fwupdate/fwflash.c: programming with a retry, rolling
    back everything that was touched, and the job sequence of its main. */
module FlashRun {
  import opened Bytes
  import opened Flash

  /** struct image_job with image, device and backup supplied. */
  datatype Job = Job(role: Role, image: seq<byte>, device: Partition, backup: seq<byte>)

  datatype Outcome = Refused | Success | RolledBack | RecoveryRequired

  function Expected(role: Role): nat {
    match role
    case Loader => LOADER_PARTITION_SIZE
    case Kernel => KERNEL_PARTITION_SIZE
    case Root => ROOTFS_PARTITION_SIZE
    case Overlay => OVERLAY_PARTITION_SIZE
  }

  predicate Fits(role: Role, image: seq<byte>, device: Partition) {
    && device.nor && device.size == Expected(role) && 0 < |image| <= device.size
    && 0 < device.eraseSize && device.size % device.eraseSize == 0
  }

  /** preflight_job. */
  predicate Preflighted(j: Job) {
    Fits(j.role, j.image, j.device) && |j.backup| == j.device.size
  }

  // ---------------------------------------------------------------- programming

  /** program_once: erase, write, compare. */
  method ProgramOnce(role: Role, image: seq<byte>, device: Partition, status: Status) returns (ok: bool)
    requires device.Valid()
    modifies device, status
    ensures device.Valid() && GrewBy(old(status.events), status.events, role)
    ensures ok ==> |image| <= device.size && device.cells == Programmed(image, device.size)
    ensures ok ==> Began(status.events, role)
    ensures !Began(status.events, role) ==> device.cells == old(device.cells)
    ensures device.reliable && Fits(role, image, device) ==> ok
    ensures status.tries == old(status.tries) + [role]
  {
    status.Try(role);
    ok := device.Open();
    if !ok || !Fits(role, image, device) {
      return false;
    }
    status.Note(EraseBegins(role));
    assert Began(status.events, role) by { NotedLast(old(status.events), EraseBegins(role)); }
    hide Fits;
    ok := ErasePartition(device);
    if ok {
      ok := WriteImage(device, image);
    }
    if ok {
      ok := CompareImage(device, image);
    }
  }

  lemma NotedLast(events: seq<Event>, e: Event)
    ensures e in events + [e]
  {
    assert (events + [e])[|events|] == e;
  }

  lemma Grew(a: seq<Event>, b: seq<Event>, c: seq<Event>, role: Role)
    requires GrewBy(a, b, role) && GrewBy(b, c, role)
    ensures GrewBy(a, c, role)
  {
  }

  lemma GrewNote(a: seq<Event>, e: Event)
    ensures GrewBy(a, a + [e], e.role) && e in a + [e]
  {
    NotedLast(a, e);
  }

  lemma BeganStays(a: seq<Event>, b: seq<Event>, role: Role, other: Role)
    requires GrewBy(a, b, role)
    ensures Began(a, other) ==> Began(b, other)
    ensures other != role ==> (Began(a, other) <==> Began(b, other))
    ensures forall e :: e in a ==> e in b
  {
    if other != role && Began(b, other) {
      var k :| 0 <= k < |b| && b[k] == EraseBegins(other);
      assert b[k] == a[k];
    }
  }

  /** Programs `image` up to twice and notes `done` on success: program_job with
      the image, restore_backup with the backup. */
  method Attempt(role: Role, image: seq<byte>, device: Partition, done: Event, status: Status) returns (ok: bool)
    requires device.Valid() && done.role == role
    modifies device, status
    ensures device.Valid() && GrewBy(old(status.events), status.events, role)
    ensures ok ==> |image| <= device.size && device.cells == Programmed(image, device.size)
    ensures ok ==> Began(status.events, role) && done in status.events
    ensures !Began(status.events, role) ==> device.cells == old(device.cells)
    ensures device.reliable && Fits(role, image, device) ==> ok
    ensures status.tries == old(status.tries) + [role, role] || (ok && status.tries == old(status.tries) + [role])
  {
    hide GrewBy, Began, Fits;
    assert GrewBy(status.events, status.events, role) by { GrewNothing(status.events, role); }
    ok := false;
    var attempt := 1;
    while attempt <= 2
      invariant !ok && device.Valid() && GrewBy(old(status.events), status.events, role)
      invariant !Began(status.events, role) ==> device.cells == old(device.cells)
      invariant 1 <= attempt <= 3
      invariant status.tries == old(status.tries) + if attempt == 1 then [] else if attempt == 2 then [role]
                                                    else [role, role]
      invariant attempt > 1 ==> !(device.reliable && Fits(role, image, device))
      decreases 3 - attempt
    {
      ghost var before := status.events;
      ok := ProgramOnce(role, image, device, status);
      Grew(old(status.events), before, status.events, role);
      BeganStays(before, status.events, role, role);
      if ok {
        ghost var verified := status.events;
        status.Note(done);
        GrewNote(verified, done);
        Grew(old(status.events), verified, status.events, role);
        BeganStays(verified, status.events, role, role);
        return;
      }
      attempt := attempt + 1;
    }
  }

  lemma GrewNothing(a: seq<Event>, role: Role)
    ensures GrewBy(a, a, role)
  {
  }

  /** program_job. */
  method ProgramJob(j: Job, status: Status) returns (ok: bool)
    requires j.device.Valid()
    modifies j.device, status
    ensures j.device.Valid() && GrewBy(old(status.events), status.events, j.role)
    ensures ok ==> |j.image| <= j.device.size && j.device.cells == Programmed(j.image, j.device.size)
    ensures ok ==> Began(status.events, j.role) && Verified(j.role) in status.events
    ensures !Began(status.events, j.role) ==> j.device.cells == old(j.device.cells)
    ensures j.device.reliable && Fits(j.role, j.image, j.device) ==> ok
    // it gives up after two attempts
    ensures status.tries == old(status.tries) + [j.role, j.role]
            || (ok && status.tries == old(status.tries) + [j.role])
  {
    ok := Attempt(j.role, j.image, j.device, Verified(j.role), status);
  }

  /** restore_backup. */
  method RestoreBackup(j: Job, status: Status) returns (ok: bool)
    requires j.device.Valid() && |j.backup| == j.device.size
    modifies j.device, status
    ensures j.device.Valid() && GrewBy(old(status.events), status.events, j.role)
    ensures ok ==> j.device.cells == j.backup && Began(status.events, j.role)
    ensures !Began(status.events, j.role) ==> j.device.cells == old(j.device.cells)
    ensures j.device.reliable && Fits(j.role, j.backup, j.device) ==> ok
    ensures status.tries == old(status.tries) + [j.role, j.role]
            || (ok && status.tries == old(status.tries) + [j.role])
  {
    hide GrewBy, Began, Fits;
    ok := Attempt(j.role, j.backup, j.device, Restored(j.role), status);
    assert Programmed(j.backup, |j.backup|) == j.backup;
  }

  // -------------------------------------------------------------------- rollback

  /** The four jobs of a run; a missing one was not requested. */
  datatype Jobs = Jobs(loader: Option<Job>, kernel: Option<Job>, root: Option<Job>, overlay: Option<Job>)
  {
    function Get(role: Role): Option<Job> {
      match role
      case Loader => loader
      case Kernel => kernel
      case Root => root
      case Overlay => overlay
    }

    ghost predicate Has(role: Role) {
      Get(role).Some?
    }

    function Device(role: Role): Partition
      requires Get(role).Some?
    {
      Get(role).value.device
    }

    ghost function Devices(): set<Partition> {
      set role: Role | Get(role).Some? :: Get(role).value.device
    }

    /** Past preflight: every job fits its own partition and has a full backup,
        and no two jobs share a partition. */
    ghost predicate Ready() {
      && (forall role :: Has(role) ==> Get(role).value.role == role && Preflighted(Get(role).value))
      && (forall a, b :: Has(a) && Has(b) && a != b ==> Device(a) != Device(b))
    }

    ghost predicate Valid()
      reads Devices()
    {
      Ready() && forall role :: Has(role) ==> Device(role).Valid()
    }
  }

  /** Restores one partition if asked to. */
  method RestoreIf(jobs: Jobs, role: Role, restore: bool, status: Status) returns (ok: bool)
    requires jobs.Valid() && (restore ==> jobs.Has(role))
    modifies status, if restore then {jobs.Device(role)} else {}
    ensures jobs.Valid() && GrewBy(old(status.events), status.events, role)
    ensures !restore ==> ok && status.events == old(status.events) && status.tries == old(status.tries)
    ensures restore ==> status.tries == old(status.tries) + [role, role]
                        || (ok && status.tries == old(status.tries) + [role])
    ensures restore && ok ==> jobs.Device(role).cells == jobs.Get(role).value.backup && Began(status.events, role)
    ensures restore && !Began(status.events, role) ==> jobs.Device(role).cells == old(jobs.Device(role).cells)
    ensures restore && jobs.Device(role).reliable ==> ok
  {
    ok := true;
    if restore {
      ok := RestoreBackup(jobs.Get(role).value, status);
    }
  }

  /** The boot chain comes first in a rollback, then the root filesystem, then the
      settings. */
  function Rank(role: Role): nat {
    match role
    case Loader => 0
    case Kernel => 1
    case Root => 2
    case Overlay => 3
  }

  /** Of the partitions in `restore` those with these ranks were tried since, all of
      them, in the order of their ranks, and no others. */
  ghost predicate TriedInOrder(before: seq<Role>, after: seq<Role>, restore: set<Role>, low: nat, high: nat) {
    && before <= after
    && (forall i :: |before| <= i < |after| ==> after[i] in restore && low <= Rank(after[i]) < high)
    && (forall i, j :: |before| <= i < j < |after| ==> Rank(after[i]) <= Rank(after[j]))
    && (forall role :: role in restore && low <= Rank(role) < high ==> role in after[|before|..])
  }

  lemma TriedChain(a: seq<Role>, b: seq<Role>, c: seq<Role>, restore: set<Role>, low: nat, mid: nat, high: nat)
    requires TriedInOrder(a, b, restore, low, mid) && TriedInOrder(b, c, restore, mid, high) && low <= mid <= high
    ensures TriedInOrder(a, c, restore, low, high)
  {
    hide Rank;
    assert c[|a|..] == b[|a|..] + c[|b|..];
    assert forall i :: |a| <= i < |b| ==> c[i] == b[i];
  }

  lemma TriedOne(before: seq<Role>, after: seq<Role>, role: Role, restore: set<Role>)
    requires if role in restore then after == before + [role] || after == before + [role, role] else after == before
    ensures TriedInOrder(before, after, restore, Rank(role), Rank(role) + 1)
  {
    if role in restore {
      assert after[|before|] == role && after[|before|..][0] == role;
    }
    forall other | Rank(other) == Rank(role) ensures other == role {
    }
  }

  /** Nothing was lost from the log, and erases of partitions outside `roles`
      were not begun. */
  ghost predicate Extends(before: seq<Event>, after: seq<Event>, roles: set<Role>) {
    && before <= after
    && (forall role :: role !in roles && Began(after, role) ==> Began(before, role))
  }

  lemma ExtendsBy(before: seq<Event>, after: seq<Event>, role: Role, roles: set<Role>)
    requires GrewBy(before, after, role) && role in roles
    ensures Extends(before, after, roles)
  {
    forall other | other !in roles && Began(after, other) ensures Began(before, other) {
      BeganStays(before, after, role, other);
    }
  }

  lemma ExtendsChain(a: seq<Event>, b: seq<Event>, c: seq<Event>, roles: set<Role>)
    requires Extends(a, b, roles) && Extends(b, c, roles)
    ensures Extends(a, c, roles)
    ensures forall role :: Began(b, role) ==> Began(c, role)
  {
    StillBegan(b, c);
    hide Began;
  }

  lemma BeganEarlier(before: seq<Event>, after: seq<Event>, roles: set<Role>)
    requires Extends(before, after, roles)
    ensures forall e :: e in before ==> e in after
  {
  }

  /** These partitions hold their backups. */
  ghost predicate BackedUp(jobs: Jobs, roles: set<Role>, events: seq<Event>)
    reads jobs.Devices()
  {
    forall role :: role in roles ==>
      jobs.Has(role) && Began(events, role) && jobs.Device(role).cells == jobs.Get(role).value.backup
  }

  /** rollback_and_reboot: boot chain first, then the root filesystem and the
      settings. */
  method RollbackAndReboot(jobs: Jobs, restore: set<Role>, status: Status) returns (o: Outcome)
    requires jobs.Valid() && forall role :: role in restore ==> jobs.Has(role)
    modifies status, set role | role in restore && jobs.Get(role).Some? :: jobs.Device(role)
    ensures jobs.Valid() && Extends(old(status.events), status.events, restore)
    ensures o in {RolledBack, RecoveryRequired}
    ensures o == RolledBack ==> BackedUp(jobs, restore, status.events)
    ensures forall role :: role in restore && !Began(status.events, role) ==>
              jobs.Device(role).cells == old(jobs.Device(role).cells)
    ensures (forall role :: role in restore ==> jobs.Device(role).reliable) ==> o == RolledBack
    ensures TriedInOrder(old(status.tries), status.tries, restore, 0, 4)
  {
    hide GrewBy, Began, Extends, Fits, TriedInOrder;
    ghost var e0, t0 := status.events, status.tries;
    var boot := RestoreTwo(jobs, Loader, Kernel, restore, status);
    ghost var e1, t1 := status.events, status.tries;
    var data := RestoreTwo(jobs, Root, Overlay, restore, status);
    ghost var e2 := status.events;
    TriedChain(t0, t1, status.tries, restore, 0, 2, 4);
    ExtendsChain(e0, e1, e2, restore);
    o := if boot && data then RolledBack else RecoveryRequired;
  }

  /** Two restorations, the second whatever became of the first. */
  method RestoreTwo(jobs: Jobs, first: Role, second: Role, restore: set<Role>, status: Status) returns (ok: bool)
    requires jobs.Valid() && Rank(second) == Rank(first) + 1 && forall r :: r in restore ==> jobs.Has(r)
    modifies status, set role | role in restore * {first, second} && jobs.Get(role).Some? :: jobs.Device(role)
    ensures jobs.Valid() && Extends(old(status.events), status.events, restore)
    ensures forall role :: role in restore * {first, second} ==>
              && (ok ==> jobs.Device(role).cells == jobs.Get(role).value.backup && Began(status.events, role))
              && (!Began(status.events, role) ==> jobs.Device(role).cells == old(jobs.Device(role).cells))
    ensures (forall role :: role in restore * {first, second} ==> jobs.Device(role).reliable) ==> ok
    ensures TriedInOrder(old(status.tries), status.tries, restore, Rank(first), Rank(second) + 1)
  {
    hide GrewBy, Began, Extends, Fits, TriedInOrder;
    ghost var e0, t0 := status.events, status.tries;
    var firstOk := RestoreOne(jobs, first, restore, status);
    ghost var e1, t1 := status.events, status.tries;
    var secondOk := RestoreOne(jobs, second, restore, status);
    ghost var e2 := status.events;
    TriedChain(t0, t1, status.tries, restore, Rank(first), Rank(second), Rank(second) + 1);
    ExtendsChain(e0, e1, e2, restore);
    ok := firstOk && secondOk;
  }

  lemma StillBegan(a: seq<Event>, b: seq<Event>)
    requires a <= b
    ensures forall role :: Began(a, role) ==> Began(b, role)
  {
  }

  method RestoreOne(jobs: Jobs, role: Role, restore: set<Role>, status: Status) returns (ok: bool)
    requires jobs.Valid() && forall r :: r in restore ==> jobs.Has(r)
    modifies status, if role in restore && jobs.Get(role).Some? then {jobs.Device(role)} else {}
    ensures jobs.Valid() && Extends(old(status.events), status.events, restore)
    ensures role in restore && ok ==>
              jobs.Device(role).cells == jobs.Get(role).value.backup && Began(status.events, role)
    ensures role in restore && !Began(status.events, role) ==> jobs.Device(role).cells == old(jobs.Device(role).cells)
    ensures role in restore && jobs.Device(role).reliable ==> ok
    ensures role !in restore ==> ok
    ensures TriedInOrder(old(status.tries), status.tries, restore, Rank(role), Rank(role) + 1)
  {
    hide GrewBy, Began, TriedInOrder, Rank;
    ok := RestoreIf(jobs, role, role in restore, status);
    TriedOne(old(status.tries), status.tries, role, restore);
    if role in restore {
      ExtendsBy(old(status.events), status.events, role, restore);
    }
  }

  // ------------------------------------------------------------------- the run

  /** The loader is erased only after everything else has been verified. */
  predicate Ordered(events: seq<Event>) {
    forall k :: 0 <= k < |events| && events[k] == EraseBegins(Loader) ==>
      Verified(Overlay) in events[..k] && Verified(Root) in events[..k] && Verified(Kernel) in events[..k]
  }

  lemma OrderedStays(before: seq<Event>, after: seq<Event>, roles: set<Role>)
    requires Ordered(before) && Extends(before, after, roles)
    requires Loader in roles ==> Verified(Overlay) in before && Verified(Root) in before && Verified(Kernel) in before
    ensures Ordered(after)
  {
    forall k | 0 <= k < |after| && after[k] == EraseBegins(Loader)
      ensures Verified(Overlay) in after[..k] && Verified(Root) in after[..k] && Verified(Kernel) in after[..k]
    {
      if k < |before| {
        assert after[..k] == before[..k] && before[k] == EraseBegins(Loader);
      } else {
        if Loader !in roles {
          assert Began(after, Loader);
          var i :| 0 <= i < |before| && before[i] == EraseBegins(Loader);
          assert forall e :: e in before[..i] ==> e in before;
        }
        assert after[..k][..|before|] == before;
        assert forall e :: e in before ==> e in after[..k];
      }
    }
  }

  /** While programming: finished partitions hold their images, the others are
      as they were and no erase of them has begun. */
  ghost predicate Progress(jobs: Jobs, was: Role -> seq<byte>, changed: set<Role>, events: seq<Event>)
    requires jobs.Valid()
    reads jobs.Devices()
  {
    && Ordered(events)
    && (forall role :: role in changed ==>
          && jobs.Has(role) && Began(events, role) && Verified(role) in events
          && jobs.Device(role).cells == Programmed(jobs.Get(role).value.image, jobs.Device(role).size))
    && (forall role :: role !in changed ==>
          && !Began(events, role)
          && (jobs.Has(role) ==> jobs.Device(role).cells == was(role)))
  }

  /** How a run may end. */
  ghost predicate Ended(jobs: Jobs, was: Role -> seq<byte>, o: Outcome, events: seq<Event>)
    requires jobs.Valid()
    reads jobs.Devices()
  {
    && Ordered(events)
    && forall role :: jobs.Has(role) ==>
         var cells := jobs.Device(role).cells;
         match o
         case Refused => cells == was(role)
         case Success => cells == Programmed(jobs.Get(role).value.image, jobs.Device(role).size)
         case RolledBack => cells == if Began(events, role) then jobs.Get(role).value.backup else was(role)
         case RecoveryRequired => Began(events, role) || cells == was(role)
  }

  /** One programming step of main. */
  method ProgramOne(jobs: Jobs, role: Role, changed: set<Role>, ghost was: Role -> seq<byte>, status: Status)
    returns (ok: bool)
    requires jobs.Valid() && jobs.Has(role) && role !in changed && Progress(jobs, was, changed, status.events)
    requires role == Loader ==> {Overlay, Root, Kernel} <= changed
    modifies status, jobs.Device(role)
    ensures jobs.Valid()
    ensures if ok then Progress(jobs, was, changed + {role}, status.events)
            else Failed(jobs, role, changed, was, status.events)
    ensures jobs.Device(role).reliable ==> ok
  {
    hide GrewBy, Ordered, Began, Fits, Programmed;
    ghost var before := status.events;
    ok := ProgramJob(jobs.Get(role).value, status);
    Later(before, status.events, role, {role});
  }

  /** A programming step of main with the rollback it falls back to. */
  method ProgramNext(jobs: Jobs, role: Role, changed: set<Role>, ghost was: Role -> seq<byte>, status: Status)
    returns (failed: Option<Outcome>)
    requires jobs.Valid() && jobs.Has(role) && role !in changed && Progress(jobs, was, changed, status.events)
    requires Loader !in changed && (role == Loader ==> {Overlay, Root, Kernel} <= changed)
    modifies status, jobs.Devices()
    ensures jobs.Valid()
    ensures failed.None? ==> Progress(jobs, was, changed + {role}, status.events)
    ensures failed.Some? ==>
              failed.value in {RolledBack, RecoveryRequired} && Ended(jobs, was, failed.value, status.events)
    ensures jobs.Device(role).reliable ==> failed.None?
  {
    hide Progress, Failed, Ended;
    var ok := ProgramOne(jobs, role, changed, was, status);
    if ok {
      return None;
    }
    var o := FailNext(jobs, role, changed, was, status);
    failed := Some(o);
  }

  /** What the log keeps while one partition is worked on. */
  lemma Later(before: seq<Event>, after: seq<Event>, role: Role, roles: set<Role>)
    requires Ordered(before) && GrewBy(before, after, role) && role in roles
    requires role == Loader ==> Verified(Overlay) in before && Verified(Root) in before && Verified(Kernel) in before
    ensures Ordered(after)
    ensures forall e :: e in before ==> e in after
    ensures forall other :: Began(before, other) ==> Began(after, other)
    ensures forall other :: other != role && !Began(before, other) ==> !Began(after, other)
  {
    ExtendsBy(before, after, role, {role});
    OrderedStays(before, after, {role});
    BeganEarlier(before, after, {role});
    StillBegan(before, after);
    NotBegun(before, after, {role});
  }

  /** Programming `role` failed after the partitions `changed` were done. */
  ghost predicate Failed(jobs: Jobs, role: Role, changed: set<Role>, was: Role -> seq<byte>, events: seq<Event>)
    reads jobs.Devices()
  {
    && Ordered(events)
    && (role == Loader ==> Verified(Overlay) in events && Verified(Root) in events && Verified(Kernel) in events)
    && (forall r :: r in changed ==> jobs.Has(r) && Began(events, r))
    && (forall r :: r !in changed + {role} ==> !Began(events, r))
    && (forall r :: jobs.Has(r) && !Began(events, r) ==> jobs.Device(r).cells == was(r))
  }

  /** Programming `role` failed: roll back what was changed, and `role`. */
  method FailNext(jobs: Jobs, role: Role, changed: set<Role>, ghost was: Role -> seq<byte>, status: Status)
    returns (o: Outcome)
    requires jobs.Valid() && jobs.Has(role) && Loader !in changed
    requires Failed(jobs, role, changed, was, status.events)
    modifies status, jobs.Devices()
    ensures jobs.Valid() && o in {RolledBack, RecoveryRequired} && Ended(jobs, was, o, status.events)
  {
    hide GrewBy, Extends, Ordered, Began;
    ghost var before := status.events;
    o := RollbackAndReboot(jobs, changed + {role}, status);
    OrderedStays(before, status.events, changed + {role});
    ExtendedBegan(before, status.events, changed + {role});
    NotBegun(before, status.events, changed + {role});
  }

  lemma ExtendedBegan(before: seq<Event>, after: seq<Event>, roles: set<Role>)
    requires Extends(before, after, roles)
    ensures forall role :: Began(before, role) ==> Began(after, role)
  {
    StillBegan(before, after);
  }

  lemma NotBegun(before: seq<Event>, after: seq<Event>, roles: set<Role>)
    requires Extends(before, after, roles)
    ensures forall role :: role !in roles && !Began(before, role) ==> !Began(after, role)
  {
  }

  /** Which jobs a run may have: an overlay alone, or a root filesystem with an
      optional overlay, or all four. */
  predicate Selection(jobs: Jobs, overlayOnly: bool) {
    if overlayOnly then jobs.overlay.Some? && jobs.root.None? && jobs.loader.None? && jobs.kernel.None?
    else jobs.root.Some? && (jobs.loader.Some? <==> jobs.kernel.Some?) && (jobs.loader.Some? ==> jobs.overlay.Some?)
  }

  /** The end of a full run: the kernel, and the loader last of all. */
  method ProgramBootChain(jobs: Jobs, ghost was: Role -> seq<byte>, status: Status) returns (failed: Option<Outcome>)
    requires jobs.Valid() && jobs.Has(Kernel) && jobs.Has(Loader) && Progress(jobs, was, {Overlay, Root}, status.events)
    modifies status, jobs.Devices()
    ensures jobs.Valid()
    ensures failed.None? ==> Progress(jobs, was, {Overlay, Root, Kernel, Loader}, status.events)
    ensures failed.Some? ==>
              failed.value in {RolledBack, RecoveryRequired} && Ended(jobs, was, failed.value, status.events)
    ensures jobs.Device(Kernel).reliable && jobs.Device(Loader).reliable ==> failed.None?
  {
    hide Progress, Ended;
    failed := ProgramNext(jobs, Kernel, {Overlay, Root}, was, status);
    if failed.Some? {
      return;
    }
    assert {Overlay, Root} + {Kernel} == {Overlay, Root, Kernel};
    failed := ProgramNext(jobs, Loader, {Overlay, Root, Kernel}, was, status);
    assert {Overlay, Root, Kernel} + {Loader} == {Overlay, Root, Kernel, Loader};
  }

  /** The job sequence of main past preflight. */
  method FlashSelected(jobs: Jobs, overlayOnly: bool, ghost was: Role -> seq<byte>, status: Status) returns (o: Outcome)
    requires jobs.Valid() && Selection(jobs, overlayOnly) && status.events == []
    requires forall role :: jobs.Has(role) ==> jobs.Device(role).cells == was(role)
    modifies status, jobs.Devices()
    ensures jobs.Valid() && o != Refused && Ended(jobs, was, o, status.events)
    ensures (forall role :: jobs.Has(role) ==> jobs.Device(role).reliable) ==> o == Success
  {
    assert Progress(jobs, was, {}, status.events);
    hide Progress, Ended;
    var changed: set<Role> := {};
    if jobs.overlay.Some? {
      var failed := ProgramNext(jobs, Overlay, {}, was, status);
      if failed.Some? {
        return failed.value;
      }
      changed := {Overlay};
      assert {} + {Overlay} == changed;
    }
    if overlayOnly {
      AllProgrammed(jobs, was, changed, status.events);
      return Success;
    }
    o := FlashSystem(jobs, changed, was, status);
  }

  /** The root filesystem, and in a full run the boot chain after it. */
  method FlashSystem(jobs: Jobs, changed: set<Role>, ghost was: Role -> seq<byte>, status: Status) returns (o: Outcome)
    requires jobs.Valid() && Selection(jobs, false) && Progress(jobs, was, changed, status.events)
    requires changed == if jobs.overlay.Some? then {Overlay} else {}
    modifies status, jobs.Devices()
    ensures jobs.Valid() && o != Refused && Ended(jobs, was, o, status.events)
    ensures (forall role :: jobs.Has(role) ==> jobs.Device(role).reliable) ==> o == Success
  {
    hide Progress, Ended;
    var failed := ProgramNext(jobs, Root, changed, was, status);
    if failed.Some? {
      return failed.value;
    }
    if jobs.loader.None? {
      AllProgrammed(jobs, was, changed + {Root}, status.events);
      return Success;
    }
    assert changed + {Root} == {Overlay, Root};
    failed := ProgramBootChain(jobs, was, status);
    if failed.Some? {
      return failed.value;
    }
    AllProgrammed(jobs, was, {Overlay, Root, Kernel, Loader}, status.events);
    o := Success;
  }

  lemma AllProgrammed(jobs: Jobs, was: Role -> seq<byte>, changed: set<Role>, events: seq<Event>)
    requires jobs.Valid() && Progress(jobs, was, changed, events)
    requires forall role :: jobs.Has(role) ==> role in changed
    ensures Ended(jobs, was, Success, events)
  {
  }

  // ------------------------------------------------------- options and preflight

  /** What the command line may supply for one partition. */
  datatype Args = Args(image: Option<seq<byte>>, device: Option<Partition>, backup: Option<seq<byte>>)
  {
    predicate Any() { image.Some? || device.Some? || backup.Some? }

    predicate All() { image.Some? && device.Some? && backup.Some? }

    function AsJob(role: Role): Option<Job> {
      if All() then Some(Job(role, image.value, device.value, backup.value)) else None
    }

    ghost function Devices(): set<Partition> {
      if device.Some? then {device.value} else {}
    }
  }

  /** The option checks of main. */
  predicate UsageOk(loader: Args, kernel: Args, root: Args, overlay: Args, overlayOnly: bool) {
    && (root.Any() ==> root.All())
    && (overlay.Any() ==> overlay.All())
    && if overlayOnly then overlay.Any() && !root.Any() && !loader.Any() && !kernel.Any()
       else root.Any() && loader.Any() == kernel.Any()
            && (loader.Any() ==> loader.All() && kernel.All() && overlay.Any())
  }

  function Selected(loader: Args, kernel: Args, root: Args, overlay: Args): Jobs {
    Jobs(loader.AsJob(Loader), kernel.AsJob(Kernel), root.AsJob(Root), overlay.AsJob(Overlay))
  }

  predicate Shares(a: Option<Job>, b: Option<Job>) {
    a.Some? && b.Some? && a.value.device == b.value.device
  }

  predicate JobOk(j: Option<Job>) {
    j.Some? ==> Preflighted(j.value)
  }

  /** The preflight of main: distinct devices, fitting images, nothing mounted,
      and every image, backup and device of the jobs could be examined. */
  predicate PreflightOk(jobs: Jobs, mounted: bool, readable: bool) {
    && !Shares(jobs.loader, jobs.kernel) && !Shares(jobs.loader, jobs.root) && !Shares(jobs.loader, jobs.overlay)
    && !Shares(jobs.kernel, jobs.root) && !Shares(jobs.kernel, jobs.overlay) && !Shares(jobs.root, jobs.overlay)
    && JobOk(jobs.root) && JobOk(jobs.overlay) && JobOk(jobs.kernel) && JobOk(jobs.loader)
    && !mounted && readable
  }

  lemma PreflightReady(loader: Args, kernel: Args, root: Args, overlay: Args, mounted: bool, readable: bool)
    requires PreflightOk(Selected(loader, kernel, root, overlay), mounted, readable)
    ensures Selected(loader, kernel, root, overlay).Ready()
  {
    hide Preflighted;
    var jobs := Selected(loader, kernel, root, overlay);
    forall a, b | jobs.Has(a) && jobs.Has(b) && a != b ensures jobs.Device(a) != jobs.Device(b) {
      assert !Shares(jobs.Get(a), jobs.Get(b));
    }
  }

  predicate Absent(a: Args) { a == Args(None, None, None) }

  /** A complete set of options for a NOR partition of this size: an image that fits,
      and a backup of the whole partition. */
  predicate Complete(a: Args, size: nat) {
    && a.image.Some? && a.device.Some? && a.backup.Some?
    && a.device.value.nor && a.device.value.size == size == |a.backup.value| && 0 < |a.image.value| <= size
    && 0 < a.device.value.eraseSize && size % a.device.value.eraseSize == 0
  }

  predicate Distinct(devices: seq<Option<Partition>>) {
    forall i, j :: 0 <= i < j < |devices| && devices[i].Some? ==> devices[i] != devices[j]
  }

  /** What a run may be given: the overlay alone; or the root filesystem, with or
      without the overlay; or all four partitions.  Every set is complete, no two name
      one device, and no overlay filesystem is mounted. */
  predicate Admissible(loader: Args, kernel: Args, root: Args, overlay: Args, overlayOnly: bool, mounted: bool) {
    && !mounted && Distinct([loader.device, kernel.device, root.device, overlay.device])
    && (if overlayOnly then Absent(root) && Complete(overlay, 5_242_880)
        else Complete(root, 8_388_608) && (Absent(overlay) || Complete(overlay, 5_242_880)))
    && (|| (Absent(loader) && Absent(kernel))
        || (!overlayOnly && Complete(loader, 262_144) && Complete(kernel, 2_883_584)
            && Complete(overlay, 5_242_880)))
  }

  /** The option checks and the preflight let through exactly that. */
  lemma AdmissibleIff(loader: Args, kernel: Args, root: Args, overlay: Args, overlayOnly: bool, mounted: bool,
                      readable: bool)
    ensures UsageOk(loader, kernel, root, overlay, overlayOnly)
            && PreflightOk(Selected(loader, kernel, root, overlay), mounted, readable) <==>
              Admissible(loader, kernel, root, overlay, overlayOnly, mounted) && readable
  {
    var jobs := Selected(loader, kernel, root, overlay);
    SetIff(loader, Loader);
    SetIff(kernel, Kernel);
    SetIff(root, Root);
    SetIff(overlay, Overlay);
    if UsageOk(loader, kernel, root, overlay, overlayOnly) {
      SharesNone(loader, kernel, root, overlay);
    }
    hide Preflighted, Complete, Distinct, Shares;
  }

  lemma SharesNone(loader: Args, kernel: Args, root: Args, overlay: Args)
    requires (loader.Any() ==> loader.All()) && (kernel.Any() ==> kernel.All())
    requires (root.Any() ==> root.All()) && (overlay.Any() ==> overlay.All())
    ensures var jobs := Selected(loader, kernel, root, overlay);
            Distinct([loader.device, kernel.device, root.device, overlay.device]) <==>
              && !Shares(jobs.loader, jobs.kernel) && !Shares(jobs.loader, jobs.root)
              && !Shares(jobs.loader, jobs.overlay) && !Shares(jobs.kernel, jobs.root)
              && !Shares(jobs.kernel, jobs.overlay) && !Shares(jobs.root, jobs.overlay)
  {
    hide Distinct;
    DistinctIff(loader.device, kernel.device, root.device, overlay.device);
  }

  lemma SetIff(a: Args, role: Role)
    ensures Complete(a, Expected(role)) <==> a.All() && JobOk(a.AsJob(role))
    ensures Absent(a) <==> !a.Any()
  {
  }

  lemma DistinctIff(a: Option<Partition>, b: Option<Partition>, c: Option<Partition>, d: Option<Partition>)
    ensures Distinct([a, b, c, d]) <==>
              && (a.Some? ==> a != b && a != c && a != d) && (b.Some? ==> b != c && b != d) && (c.Some? ==> c != d)
  {
    var all := [a, b, c, d];
    assert all[0] == a && all[1] == b && all[2] == c && all[3] == d;
  }

  /** main.  `readable` says whether every stat, open and MEMGETINFO of the
      preflight works.  Bad options or a failed preflight leave everything alone; past
      that, every selected partition ends verified with its image, or every
      partition whose erase may have begun is back to its backup and the rest
      untouched, or the run says that recovery is required. */
  method Run(loader: Args, kernel: Args, root: Args, overlay: Args, overlayOnly: bool, mounted: bool,
             readable: bool, status: Status)
    returns (o: Outcome, ghost jobs: Jobs, ghost was: Role -> seq<byte>)
    requires status.events == []
    requires forall d :: d in loader.Devices() + kernel.Devices() + root.Devices() + overlay.Devices() ==> d.Valid()
    modifies status, loader.Devices() + kernel.Devices() + root.Devices() + overlay.Devices()
    ensures jobs == Selected(loader, kernel, root, overlay)
    ensures o != Refused <==> Admissible(loader, kernel, root, overlay, overlayOnly, mounted) && readable
    ensures o == Refused ==> status.events == []
    ensures o == Refused ==>
              forall d :: d in loader.Devices() + kernel.Devices() + root.Devices() + overlay.Devices() ==>
                d.cells == old(d.cells)
    ensures forall role :: jobs.Has(role) ==> was(role) == old(jobs.Device(role).cells)
    ensures o != Refused ==> jobs.Valid() && Ended(jobs, was, o, status.events)
    ensures o != Refused && (forall role :: jobs.Has(role) ==> jobs.Device(role).reliable) ==> o == Success
  {
    jobs := Selected(loader, kernel, root, overlay);
    AdmissibleIff(loader, kernel, root, overlay, overlayOnly, mounted, readable);
    hide Admissible;
    ghost var snapshot: map<Role, seq<byte>> := map role: Role | jobs.Has(role) :: jobs.Device(role).cells;
    was := role => if role in snapshot then snapshot[role] else [];
    if !UsageOk(loader, kernel, root, overlay, overlayOnly) {
      return Refused, jobs, was;
    }
    var selected := Selected(loader, kernel, root, overlay);
    if !PreflightOk(selected, mounted, readable) {
      return Refused, jobs, was;
    }
    PreflightReady(loader, kernel, root, overlay, mounted, readable);
    hide Ended, Preflighted;
    o := FlashSelected(selected, overlayOnly, was, status);
  }
}
