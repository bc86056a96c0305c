/** The mask agrees with the names that devices hold, through every run of installs and uninstalls. */
module DriveLetterRuns {
  import opened DriveLetters

  predicate HasLetter(names: seq<string>, k: nat) {
    k < LETTERS && Name(k) in names
  }

  /** No letter appears in two slots. */
  ghost predicate Distinct(names: seq<string>) {
    forall p, q :: 0 <= p < q < |names| && names[p] != "" ==> names[p] != names[q]
  }

  lemma NamesDiffer(j: nat, k: nat)
    requires j < LETTERS && k < LETTERS && Name(j) == Name(k)
    ensures j == k
  {
    NameIndex(j);
    NameIndex(k);
  }

  // ---------- one install ----------

  /** The names given so far are well formed, distinct, new, and exactly the bits that were added. */
  ghost predicate Given(names: seq<string>, mask: bv32, before: bv32) {
    && Wellformed(names) && Distinct(names)
    && (forall k :: 0 <= k < 32 ==> (Bit(mask, k) <==> Bit(before, k) || HasLetter(names, k)))
    && (forall k :: 0 <= k < 32 && HasLetter(names, k) ==> !Bit(before, k))
  }

  /** Putting a new name into an empty slot adds its letter and no other. */
  lemma LettersOfUpdate(names: seq<string>, p: nat, k: nat, j: nat)
    requires |names| == SLOTS && p < SLOTS && names[p] == "" && k < LETTERS
    ensures HasLetter(names[p := Name(k)], j) <==> HasLetter(names, j) || j == k
  {
    var updated := names[p := Name(k)];
    assert updated[p] == Name(k);
    if j < LETTERS && Name(j) == Name(k) {
      NamesDiffer(j, k);
    }
    if HasLetter(names, j) {
      var q :| 0 <= q < SLOTS && names[q] == Name(j);
      assert updated[q] == Name(j);
    }
  }

  /** The lowest free letter is given, if there is one and mounting works. */
  lemma AssignGives(names: seq<string>, mask: bv32, before: bv32, p: nat, mounts: bool)
    requires Given(names, mask, before) && p < SLOTS && names[p] == ""
    ensures var (name, m) := Assign(mask, "", mounts); Given(names[p := name], m, before)
  {
    hide Mask, Bit, LowestFree;
    var k := LowestFree(mask);
    if k < LETTERS && mounts {
      GiveNew(names, mask, before, p, k);
    } else {
      assert names[p := ""] == names;
    }
  }

  lemma GiveNew(names: seq<string>, mask: bv32, before: bv32, p: nat, k: nat)
    requires Given(names, mask, before) && p < SLOTS && names[p] == ""
    requires k < LETTERS && !Bit(mask, k)
    ensures Given(names[p := Name(k)], mask | Mask(k), before)
  {
    hide Mask, Bit, HasLetter;
    var updated := names[p := Name(k)];
    forall j | 0 <= j < 32
      ensures Bit(mask | Mask(k), j) <==> Bit(before, j) || HasLetter(updated, j)
      ensures HasLetter(updated, j) ==> !Bit(before, j)
    {
      LettersOfUpdate(names, p, k, j);
      BitOfSet(mask, k, j);
    }
    NewIsDistinct(names, p, k);
    NameIndex(k);
  }

  lemma NewIsDistinct(names: seq<string>, p: nat, k: nat)
    requires |names| == SLOTS && p < SLOTS && k < LETTERS && Distinct(names) && !HasLetter(names, k)
    ensures Distinct(names[p := Name(k)])
  {
    assert forall q :: 0 <= q < SLOTS ==> names[q] != Name(k);
  }

  lemma {:induction false} PartsGive(names: seq<string>, mask: bv32, before: bv32, parts: seq<PartIo>, p: nat)
    requires Given(names, mask, before) && |names| == |parts| == SLOTS && p <= SLOTS
    requires forall q :: p <= q < SLOTS ==> names[q] == ""
    ensures var (n, m) := AssignParts(names, mask, parts, p); Given(n, m, before)
    decreases SLOTS - p
  {
    hide Given, Assign;
    if p == SLOTS || !parts[p].opens {
    } else if !parts[p].selects || !parts[p].validates {
      PartsGive(names, mask, before, parts, p + 1);
    } else {
      GivenShape(names, mask, before);
      var (name, m) := Assign(mask, names[p], parts[p].mounts);
      AssignGives(names, mask, before, p, parts[p].mounts);
      PartsGive(names[p := name], m, before, parts, p + 1);
    }
  }

  lemma GivenShape(names: seq<string>, mask: bv32, before: bv32)
    requires Given(names, mask, before)
    ensures |names| == SLOTS
  {
  }

  /** An install takes exactly the bits of the names that the device ends up with. */
  lemma InstallGives(mask: bv32, io: Io)
    requires io.Valid()
    ensures var (names, m) := Installed(mask, io); Given(names, m, mask)
  {
    hide Bit, Mask, Assign;
    assert forall k :: !HasLetter(NO_NAMES, k);
    AssignGives(NO_NAMES, mask, mask, 0, io.wholeMounts);
    PartsGive(NO_NAMES, mask, mask, io.parts, 1);
  }

  // ---------- which slots an install names ----------

  /** The k-th letter is free before the install and not given to an earlier slot. */
  predicate Available(mask: bv32, names: seq<string>, p: nat, k: nat)
    requires p <= |names|
  {
    k < LETTERS && !Bit(mask, k) && !HasLetter(names[..p], k)
  }

  /** Slot p holds the lowest letter that was available for it. */
  ghost predicate HasLowest(mask: bv32, names: seq<string>, p: nat)
    requires p < |names|
  {
    exists k: nat :: Available(mask, names, p, k) && names[p] == Name(k)
                     && forall j: nat :: j < k ==> !Available(mask, names, p, j)
  }

  /** Every partition up to p opens, and p can be selected, holds a file system and can be mounted. */
  predicate Served(parts: seq<PartIo>, p: nat)
    requires p < |parts|
  {
    (forall q :: 1 <= q <= p ==> parts[q].opens) && parts[p].selects && parts[p].validates && parts[p].mounts
  }

  /** Slot p is as it should be after a partition loop. */
  ghost predicate Chosen(mask: bv32, names: seq<string>, parts: seq<PartIo>, p: nat)
    requires p < |names| && p < |parts|
  {
    if Served(parts, p) && exists k: nat :: Available(mask, names, p, k) then HasLowest(mask, names, p)
    else names[p] == ""
  }

  lemma LowestIsChosen(names: seq<string>, m: bv32, before: bv32, p: nat)
    requires Given(names, m, before) && p < SLOTS && forall q :: p <= q < SLOTS ==> names[q] == ""
    ensures forall k: nat :: Available(before, names, p, k) <==> k < LETTERS && !Bit(m, k)
  {
    hide Bit, Mask;
    forall k: nat | k < LETTERS ensures HasLetter(names[..p], k) <==> HasLetter(names, k) {
      if HasLetter(names, k) {
        var q :| 0 <= q < SLOTS && names[q] == Name(k);
        assert names[..p][q] == Name(k);
      }
    }
  }

  /** The first slot of the rest of the loop, when it is reached. */
  lemma SlotIsChosen(names: seq<string>, after: seq<string>, m: bv32, before: bv32, parts: seq<PartIo>, p: nat)
    requires Given(names, m, before) && |names| == |after| == |parts| == SLOTS && p < SLOTS
    requires parts[p].selects && parts[p].validates && forall q :: 1 <= q <= p ==> parts[q].opens
    requires forall q :: p <= q < SLOTS ==> names[q] == ""
    requires after[..p] == names[..p] && after[p] == Assign(m, names[p], parts[p].mounts).0
    ensures Chosen(before, after, parts, p)
  {
    hide Bit, Mask, HasLetter, Given;
    LowestIsChosen(names, m, before, p);
    assert forall j: nat :: Available(before, after, p, j) <==> Available(before, names, p, j);
    if LowestFree(m) < LETTERS {
      assert Available(before, after, p, LowestFree(m));
    }
  }

  lemma {:induction false} PartsChoose(names: seq<string>, m: bv32, before: bv32, parts: seq<PartIo>, p: nat)
    requires Given(names, m, before) && |names| == |parts| == SLOTS && 1 <= p <= SLOTS
    requires forall q :: p <= q < SLOTS ==> names[q] == ""
    requires forall q :: 1 <= q < p ==> parts[q].opens
    ensures var after := AssignParts(names, m, parts, p).0;
            && |after| == SLOTS && after[..p] == names[..p]
            && forall q :: p <= q < SLOTS ==> Chosen(before, after, parts, q)
    decreases SLOTS - p
  {
    hide Given, Assign, HasLowest, Available;
    if p == SLOTS || !parts[p].opens {
    } else if !parts[p].selects || !parts[p].validates {
      PartsChoose(names, m, before, parts, p + 1);
      FirstOfMore(names, AssignParts(names, m, parts, p).0, p);
    } else {
      var (name, mask) := Assign(m, names[p], parts[p].mounts);
      AssignGives(names, m, before, p, parts[p].mounts);
      var after := AssignParts(names, m, parts, p).0;
      PartsChoose(names[p := name], mask, before, parts, p + 1);
      FirstOfMore(names[p := name], after, p);
      assert names[p := name][..p] == names[..p];
      GivenShape(names, m, before);
      SlotIsChosen(names, after, m, before, parts, p);
    }
  }

  lemma FirstOfMore(a: seq<string>, b: seq<string>, p: nat)
    requires p < |a| == |b| && a[..p + 1] == b[..p + 1]
    ensures a[..p] == b[..p] && a[p] == b[p]
  {
    assert a[..p] == a[..p + 1][..p] && b[..p] == b[..p + 1][..p];
    assert a[p] == a[..p + 1][p] && b[p] == b[..p + 1][p];
  }

  /**
   Which slots an install names.  Without the partition manager none; on a device without
   partitions slot 0, if it can be mounted; else of slots 1 to 4 those whose partition is
   reached and usable.  Each gets the lowest letter then available, as long as there is one.
   */
  lemma InstallNames(mask: bv32, io: Io)
    requires io.Valid()
    ensures var names := Installed(mask, io).0;
            && |names| == SLOTS
            && if !(io.deviceInstalls && io.deviceOpens && io.managerInstalls && io.managerOpens) then
                 forall p :: 0 <= p < SLOTS ==> names[p] == ""
               else if !io.partitionsRead || io.validPartitions == 0 then
                 && (forall p :: 1 <= p < SLOTS ==> names[p] == "")
                 && if io.wholeMounts && exists k: nat :: Available(mask, names, 0, k)
                    then HasLowest(mask, names, 0) else names[0] == ""
               else
                 names[0] == "" && forall p :: 1 <= p < SLOTS ==> Chosen(mask, names, io.parts, p)
  {
    hide Bit, Mask, HasLetter, Assign;
    InstallStarts(mask);
    var names := Installed(mask, io).0;
    if io.Reaches() && io.Whole() {
      WholeChosen(mask, io.wholeMounts);
    } else if io.Reaches() {
      PartsChoose(NO_NAMES, mask, mask, io.parts, 1);
      assert names[0] == names[..1][0];
    }
  }

  lemma InstallStarts(mask: bv32)
    ensures Given(NO_NAMES, mask, mask)
  {
    hide Bit, Mask;
    assert forall k :: !HasLetter(NO_NAMES, k);
  }

  lemma WholeChosen(mask: bv32, mounts: bool)
    ensures var names := NO_NAMES[0 := Assign(mask, "", mounts).0];
            if mounts && exists k: nat :: Available(mask, names, 0, k)
            then HasLowest(mask, names, 0) else names[0] == ""
  {
    hide Bit, Mask;
    var names := NO_NAMES[0 := Assign(mask, "", mounts).0];
    assert forall k: nat :: Available(mask, names, 0, k) <==> k < LETTERS && !Bit(mask, k);
    if LowestFree(mask) < LETTERS {
      assert Available(mask, names, 0, LowestFree(mask));
    }
  }

  /** An uninstall clears the bits of the device's own letters and no other bit. */
  lemma {:induction false} ReleaseClears(mask: bv32, names: seq<string>, p: nat, k: nat)
    requires Wellformed(names) && p <= SLOTS && k < 32
    ensures Bit(Release(mask, names, p), k) <==> Bit(mask, k) && !HasLetter(names[p..], k)
    decreases SLOTS - p
  {
    hide Bit, Mask, HasLetter;
    if p == SLOTS {
      assert !HasLetter(names[p..], k) by {
        NoLetter(names[p..], k);
      }
    } else {
      FirstLetter(names, p, k);
      if names[p] == "" {
        ReleaseClears(mask, names, p + 1, k);
      } else {
        var j := IndexOf(names[p]);
        ReleaseClears(mask & !Mask(j), names, p + 1, k);
        BitOfClear(mask, j, k);
      }
    }
  }

  lemma NoLetter(names: seq<string>, k: nat)
    requires names == []
    ensures !HasLetter(names, k)
  {
  }

  lemma FirstLetter(names: seq<string>, p: nat, k: nat)
    requires p < |names| && IsSlot(names[p])
    ensures HasLetter(names[p..], k) <==> (names[p] != "" && IndexOf(names[p]) == k) || HasLetter(names[p + 1..], k)
  {
    assert names[p..] == [names[p]] + names[p + 1..];
    if names[p] != "" && k < LETTERS && Name(k) == names[p] {
      NamesDiffer(IndexOf(names[p]), k);
    }
  }

  // ---------- all devices ----------

  /** Slot p of device d holds the k-th letter. */
  ghost predicate HeldAt(live: map<nat, seq<string>>, d: nat, p: nat, k: nat) {
    d in live && p < |live[d]| && k < LETTERS && live[d][p] == Name(k)
  }

  ghost predicate Held(live: map<nat, seq<string>>, k: nat) {
    exists d, p :: HeldAt(live, d, p, k)
  }

  /** Bit k is set iff exactly one slot of a live device holds the k-th letter. */
  ghost predicate Agree(mask: bv32, live: map<nat, seq<string>>) {
    && (forall d :: d in live ==> Wellformed(live[d]))
    && (forall k :: 0 <= k < 32 ==> (Bit(mask, k) <==> Held(live, k)))
    && (forall d: nat, p: nat, e: nat, q: nat, k: nat :: HeldAt(live, d, p, k) && HeldAt(live, e, q, k) ==>
          d == e && p == q)
  }

  lemma HeldByDevice(live: map<nat, seq<string>>, d: nat, k: nat)
    requires d in live
    ensures HasLetter(live[d], k) <==> exists p :: HeldAt(live, d, p, k)
  {
    if HasLetter(live[d], k) {
      var p :| 0 <= p < |live[d]| && live[d][p] == Name(k);
      assert HeldAt(live, d, p, k);
    }
  }

  /**
   Installing keeps mask and names in agreement exactly when the device struct holds no letter
   beforehand: zeroing the struct of a device that does would leak its letters.
   */
  lemma InstallKeepsAgreement(mask: bv32, live: map<nat, seq<string>>, d: nat, io: Io)
    requires Agree(mask, live) && io.Valid()
    ensures var (names, m) := Installed(mask, io);
            Agree(m, live[d := names]) <==> d !in live || live[d] == NO_NAMES
  {
    hide Bit, Mask;
    var (names, m) := Installed(mask, io);
    var after := live[d := names];
    InstallGives(mask, io);
    if d in live && live[d] != NO_NAMES {
      LeaksLetters(mask, live, d, names, m);
    } else {
      AddsLetters(mask, live, d, names, m);
    }
  }

  /** A device that held nothing adds exactly its new letters, which nobody else holds. */
  lemma AddsLetters(mask: bv32, live: map<nat, seq<string>>, d: nat, names: seq<string>, m: bv32)
    requires Agree(mask, live) && (d in live ==> live[d] == NO_NAMES) && Given(names, m, mask)
    ensures Agree(m, live[d := names])
  {
    hide Bit, Mask;
    var after := live[d := names];
    forall k | 0 <= k < 32 ensures Bit(m, k) <==> Held(after, k) {
      HeldAfterInstall(live, d, names, k);
    }
    forall e: nat, p: nat, f: nat, q: nat, k: nat | HeldAt(after, e, p, k) && HeldAt(after, f, q, k)
      ensures e == f && p == q
    {
      HeldBefore(live, d, names, e, p, k);
      HeldBefore(live, d, names, f, q, k);
      assert e == d && f == d ==> names[p] == names[q];
      assert HeldAt(live, e, p, k) || HeldAt(live, f, q, k) ==> Held(live, k);
    }
  }

  lemma HeldBefore(live: map<nat, seq<string>>, d: nat, names: seq<string>, e: nat, p: nat, k: nat)
    requires HeldAt(live[d := names], e, p, k)
    ensures if e == d then HasLetter(names, k) && p < |names| && names[p] != "" else HeldAt(live, e, p, k)
  {
  }

  lemma HeldAfterInstall(live: map<nat, seq<string>>, d: nat, names: seq<string>, k: nat)
    requires d in live ==> !HasLetter(live[d], k)
    ensures Held(live[d := names], k) <==> Held(live, k) || HasLetter(names, k)
  {
    var after := live[d := names];
    HeldByDevice(after, d, k);
    if Held(live, k) {
      var e, p :| HeldAt(live, e, p, k);
      assert HeldAt(after, e, p, k);
    }
    if Held(after, k) {
      var e, p :| HeldAt(after, e, p, k);
      assert e != d ==> HeldAt(live, e, p, k);
    }
  }

  /** A letter held before is in the mask afterwards, but in no slot. */
  lemma LeaksLetters(mask: bv32, live: map<nat, seq<string>>, d: nat, names: seq<string>, m: bv32)
    requires Agree(mask, live) && d in live && live[d] != NO_NAMES && Given(names, m, mask)
    ensures !Agree(m, live[d := names])
  {
    hide Bit, Mask;
    var after := live[d := names];
    var p :| 0 <= p < SLOTS && live[d][p] != "";
    var k := IndexOf(live[d][p]);
    assert HeldAt(live, d, p, k);
    assert Bit(mask, k) && Bit(m, k) && !HasLetter(names, k);
    assert forall e, q :: HeldAt(after, e, q, k) ==>
                            (e == d && HasLetter(names, k)) || (e != d && HeldAt(live, e, q, k));
  }

  /** Uninstalling a live device releases exactly its letters. */
  lemma UninstallKeepsAgreement(mask: bv32, live: map<nat, seq<string>>, d: nat)
    requires Agree(mask, live) && d in live
    ensures Agree(Release(mask, live[d]), live - {d})
  {
    hide Bit, Mask;
    var after := live - {d};
    forall k | 0 <= k < 32 ensures Bit(Release(mask, live[d]), k) <==> Held(after, k) {
      ReleaseClears(mask, live[d], 0, k);
      assert live[d][0..] == live[d];
      HeldByDevice(live, d, k);
      if Held(live, k) {
        var e, p :| HeldAt(live, e, p, k);
        assert e != d ==> HeldAt(after, e, p, k);
      }
      if Held(after, k) {
        var e, p :| HeldAt(after, e, p, k);
        assert HeldAt(live, e, p, k);
      }
    }
    forall e: nat, p: nat, f: nat, q: nat, k: nat | HeldAt(after, e, p, k) && HeldAt(after, f, q, k)
      ensures e == f && p == q
    {
      assert HeldAt(live, e, p, k) && HeldAt(live, f, q, k);
    }
  }

  /**
   Uninstalling a device a second time, from the names still in its struct, keeps the agreement
   exactly when none of those letters has been given out again.
   */
  lemma SecondUninstall(mask: bv32, live: map<nat, seq<string>>, names: seq<string>)
    requires Agree(mask, live) && Wellformed(names)
    ensures Agree(Release(mask, names), live) <==> forall k :: 0 <= k < LETTERS && HasLetter(names, k) ==> !Bit(mask, k)
  {
    hide Bit, Mask;
    assert names[0..] == names;
    forall k | 0 <= k < 32 ensures Bit(Release(mask, names), k) <==> Bit(mask, k) && !HasLetter(names, k) {
      ReleaseClears(mask, names, 0, k);
    }
  }

  // ---------- runs ----------

  datatype Op = Attach(device: nat, io: Io) | Detach(device: nat)

  /** Every install says how each of its calls ends. */
  predicate Plugged(run: seq<Op>) {
    forall i :: 0 <= i < |run| && run[i].Attach? ==> run[i].io.Valid()
  }

  /** Mask and live devices after a run; only a device that is not live is attached, and a live one detached. */
  ghost function After(run: seq<Op>): (r: (bv32, map<nat, seq<string>>))
    requires Plugged(run)
    ensures Agree(r.0, r.1)
    decreases |run|
  {
    if run == [] then
      NothingHeld();
      (0 as bv32, map[])
    else
      var (mask, live) := After(run[..|run| - 1]);
      match run[|run| - 1]
      case Attach(d, io) =>
        if d in live then (mask, live) else
        InstallKeepsAgreement(mask, live, d, io);
        var (names, m) := Installed(mask, io);
        (m, live[d := names])
      case Detach(d) =>
        if d !in live then (mask, live) else
        UninstallKeepsAgreement(mask, live, d);
        (Release(mask, live[d]), live - {d})
  }

  lemma NothingHeld()
    ensures Agree(0, map[])
  {
    forall k | 0 <= k < 32 ensures !Bit(0, k) && !Held(map[], k) {
      NoBits(Mask(k));
    }
  }

  lemma NoBits(m: bv32)
    ensures 0 & m == 0
  {
  }

  const ONLY_A := ["a:", "", "", "", ""]

  /** An install in which every call succeeds on a device without partitions. */
  const WHOLE := Io(true, true, true, true, true, 0, true, seq(SLOTS, _ => PartIo(true, true, true, true)))

  lemma WholeGivesA()
    ensures Installed(0, WHOLE) == (ONLY_A, 1)
  {
    assert Mask(0) == 1;
    assert !Bit(0, 0);
    assert Name(0) == "a:";
    assert LowestFree(0) == 0;
    assert (0 as bv32) | 1 == 1;
    assert Assign(0, "", true) == ("a:", 1);
    assert NO_NAMES[0 := "a:"] == ONLY_A;
  }

  /** The letter of device 1 is free again after an uninstall, and device 2 is given it. */
  lemma TakenOver()
    ensures After([Attach(1, WHOLE)]) == (1, map[1 := ONLY_A])
    ensures After([Attach(1, WHOLE), Detach(1)]) == (0, map[])
    ensures After([Attach(1, WHOLE), Detach(1), Attach(2, WHOLE)]) == (1, map[2 := ONLY_A])
  {
    hide Installed, Agree, Release;
    var run := [Attach(1, WHOLE), Detach(1), Attach(2, WHOLE)];
    WholeGivesA();
    assert run[..2] == [Attach(1, WHOLE), Detach(1)];
    assert run[..2][..1] == [Attach(1, WHOLE)] && [Attach(1, WHOLE)][..0] == [];
    assert After([]) == (0 as bv32, map[]);
    assert Release(1, ONLY_A) == 0 by {
      ReleaseA();
    }
  }

  lemma ReleaseA()
    ensures Wellformed(ONLY_A) && Release(1, ONLY_A) == 0
  {
    assert Mask(0) == 1;
    assert IndexOf("a:") == 0;
    assert (1 as bv32) & !1 == 0;
    assert Release(0, ONLY_A, 1) == 0;
  }

  /** A run in which device 2 is given the letter of device 1, which is then uninstalled again. */
  lemma SecondUninstallTakesLetter()
    ensures After([Attach(1, WHOLE)]).1[1] == ONLY_A
    ensures After([Attach(1, WHOLE), Detach(1), Attach(2, WHOLE)]) == (1, map[2 := ONLY_A])
    ensures Agree(1, map[2 := ONLY_A]) && !Agree(Release(1, ONLY_A), map[2 := ONLY_A])
  {
    TakenOver();
    ReleaseA();
    var live := map[2 := ONLY_A];
    assert HeldAt(live, 2, 0, 0);
    assert !Bit(0, 0);
  }

  /** In every run the six highest bits stay clear. */
  lemma HighBitsStayClear(run: seq<Op>, k: nat)
    requires Plugged(run)
    requires LETTERS <= k < 32
    ensures !Bit(After(run).0, k)
  {
    hide Bit, Mask;
    assert !Held(After(run).1, k);
  }

  /** Uninstalling the given devices in turn. */
  function Detaches(devices: seq<nat>): seq<Op> {
    if devices == [] then [] else Detaches(devices[..|devices| - 1]) + [Detach(devices[|devices| - 1])]
  }

  lemma {:induction false} DetachesRemain(run: seq<Op>, devices: seq<nat>)
    requires Plugged(run)
    ensures Plugged(run + Detaches(devices))
    ensures After(run + Detaches(devices)).1.Keys == After(run).1.Keys - (set d | d in devices)
    decreases |devices|
  {
    hide Agree, Release, Installed;
    if devices == [] {
      assert run + Detaches(devices) == run;
    } else {
      var init, last := devices[..|devices| - 1], devices[|devices| - 1];
      DetachesRemain(run, init);
      var all := run + Detaches(devices);
      assert all[..|all| - 1] == run + Detaches(init) && all[|all| - 1] == Detach(last);
      assert devices == init + [last];
    }
  }

  /** After every run with any failures, uninstalling the devices that are still there leaves no letter taken. */
  lemma NoLeak(run: seq<Op>, devices: seq<nat>)
    requires Plugged(run) && forall d :: d in After(run).1 ==> d in devices
    ensures Plugged(run + Detaches(devices))
    ensures forall k :: 0 <= k < 32 ==> !Bit(After(run + Detaches(devices)).0, k)
  {
    DetachesRemain(run, devices);
    var (mask, live) := After(run + Detaches(devices));
    assert live.Keys == {};
    forall k | 0 <= k < 32 ensures !Bit(mask, k) {
      assert !Held(live, k);
    }
  }
}
