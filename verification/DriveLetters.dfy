/**
 Drive letters of USB mass storage devices: a 32-bit mask says which letters are taken, and
 each device keeps the names it was given in five slots (slot 0 for the whole device, slots
 1 to 4 for partitions).
 */
module DriveLetters {

  const LETTERS: nat := 26
  const SLOTS: nat := 5

  // ---------- the mask ----------

  function Mask(k: nat): bv32
    requires k < 32
  {
    (1 as bv32) << (k as bv6)
  }

  predicate Bit(m: bv32, k: nat)
    requires k < 32
  {
    m & Mask(k) != 0
  }

  lemma BitTest(m: bv32, k: nat, mask: bv32)
    requires k < 32 && mask == Mask(k)
    ensures Bit(m, k) <==> m & mask != 0
  {
    hide Mask;
    assert m & mask == m & Mask(k);
  }

  lemma ShiftStep(a: bv6)
    requires a < 31
    ensures ((1 as bv32) << a) << 1 == (1 as bv32) << (a + 1)
  {
  }

  lemma FirstMask()
    ensures Mask(0) == 1
  {
  }

  lemma MaskShift(k: nat)
    requires k < 31
    ensures Mask(k) << 1 == Mask(k + 1)
  {
    assert (k + 1) as bv6 == k as bv6 + 1;
    ShiftStep(k as bv6);
  }

  lemma ShiftsDiffer(a: bv6, b: bv6)
    requires a < 32 && b < 32
    ensures ((1 as bv32) << a) & ((1 as bv32) << b) == 0 <==> a != b
  {
  }

  lemma SameShift(j: nat, k: nat)
    requires j < 32 && k < 32 && j as bv6 == k as bv6
    ensures j == k
  {
    assert j == (j as bv6) as nat;
    assert (k as bv6) as nat == k;
  }

  lemma MasksDiffer(k: nat, j: nat)
    requires k < 32 && j < 32
    ensures Mask(k) & Mask(j) == 0 <==> k != j
  {
    if k as bv6 == j as bv6 {
      SameShift(k, j);
    }
    ShiftsDiffer(k as bv6, j as bv6);
  }

  lemma OrOther(m: bv32, a: bv32, b: bv32)
    requires a & b == 0
    ensures (m | a) & b == m & b
  {
  }

  lemma OrSelf(m: bv32, b: bv32)
    ensures (m | b) & b == b
  {
  }

  lemma AndSelf(b: bv32)
    ensures b & b == b
  {
  }

  lemma AndNotOther(m: bv32, a: bv32, b: bv32)
    requires a & b == 0
    ensures (m & !a) & b == m & b
  {
  }

  lemma AndNotSelf(m: bv32, b: bv32)
    ensures (m & !b) & b == 0
  {
  }

  lemma SetOther(m: bv32, k: nat, j: nat)
    requires k < 32 && j < 32 && k != j
    ensures (m | Mask(k)) & Mask(j) == m & Mask(j)
  {
    hide Mask;
    MasksDiffer(k, j);
    OrOther(m, Mask(k), Mask(j));
  }

  lemma SetSelf(m: bv32, k: nat)
    requires k < 32
    ensures (m | Mask(k)) & Mask(k) != 0
  {
    hide Mask;
    MasksDiffer(k, k);
    AndSelf(Mask(k));
    OrSelf(m, Mask(k));
  }

  lemma ClearOther(m: bv32, k: nat, j: nat)
    requires k < 32 && j < 32 && k != j
    ensures (m & !Mask(k)) & Mask(j) == m & Mask(j)
  {
    hide Mask;
    MasksDiffer(k, j);
    AndNotOther(m, Mask(k), Mask(j));
  }

  /** Setting the k-th bit sets that bit only. */
  lemma BitOfSet(m: bv32, k: nat, j: nat)
    requires k < 32 && j < 32
    ensures Bit(m | Mask(k), j) <==> Bit(m, j) || j == k
  {
    hide Mask;
    if k == j {
      SetSelf(m, k);
      assert Bit(m | Mask(k), j);
    } else {
      SetOther(m, k, j);
    }
  }

  /** Clearing the k-th bit clears that bit only. */
  lemma BitOfClear(m: bv32, k: nat, j: nat)
    requires k < 32 && j < 32
    ensures Bit(m & !Mask(k), j) <==> Bit(m, j) && j != k
  {
    hide Mask;
    if k == j {
      AndNotSelf(m, Mask(k));
      assert !Bit(m & !Mask(k), j);
    } else {
      ClearOther(m, k, j);
    }
  }

  // ---------- names ----------

  function Letter(k: nat): char
    requires k < LETTERS
  {
    'a' + k as char
  }

  /** The file system name of the k-th letter. */
  function Name(k: nat): string
    requires k < LETTERS
  {
    [Letter(k), ':']
  }

  /** A slot is empty or names one of the 26 letters. */
  predicate IsSlot(name: string) {
    name == "" || (|name| == 2 && 'a' <= name[0] <= 'z' && name[1] == ':')
  }

  /** Which letter a name stands for. */
  function IndexOf(name: string): (k: nat)
    requires IsSlot(name) && name != ""
    ensures k < LETTERS && name == Name(k)
  {
    name[0] as nat - 'a' as nat
  }

  lemma NameIndex(k: nat)
    requires k < LETTERS
    ensures IsSlot(Name(k)) && IndexOf(Name(k)) == k
  {
  }

  predicate Wellformed(names: seq<string>) {
    |names| == SLOTS && forall p :: 0 <= p < SLOTS ==> IsSlot(names[p])
  }

  // ---------- assigning ----------

  /** The first letter from k on whose bit is clear, or the number of letters. */
  function LowestFree(mask: bv32, k: nat := 0): (r: nat)
    requires k <= LETTERS
    ensures k <= r <= LETTERS
    ensures forall j :: k <= j < r ==> Bit(mask, j)
    ensures r < LETTERS ==> !Bit(mask, r)
    decreases LETTERS - k
  {
    if k == LETTERS || !Bit(mask, k) then k else LowestFree(mask, k + 1)
  }

  /** The name given and the new mask; mounts says whether mounting the file system works. */
  function Assign(mask: bv32, previous: string, mounts: bool): (string, bv32) {
    var k := LowestFree(mask);
    if k == LETTERS then (previous, mask)
    else if mounts then (Name(k), mask | Mask(k))
    else ("", mask)
  }

  /** Which of the calls of an installation succeed for one partition. */
  datatype PartIo = PartIo(opens: bool, selects: bool, validates: bool, mounts: bool)

  /** Which of the calls of an installation succeed, and how many valid partitions are reported. */
  datatype Io = Io(
    deviceInstalls: bool, deviceOpens: bool, managerInstalls: bool, managerOpens: bool,
    partitionsRead: bool, validPartitions: nat, wholeMounts: bool, parts: seq<PartIo>)
  {
    predicate Valid() {
      |parts| == SLOTS
    }

    /** The partition manager is there, so the letters are handed out. */
    predicate Reaches() {
      deviceInstalls && deviceOpens && managerInstalls && managerOpens
    }

    predicate Whole() {
      !partitionsRead || validPartitions == 0
    }
  }

  /** The partition loop from slot p on; it stops at the first partition that cannot be opened. */
  function AssignParts(names: seq<string>, mask: bv32, parts: seq<PartIo>, p: nat): (seq<string>, bv32)
    requires |names| == |parts| == SLOTS && p <= SLOTS
    decreases SLOTS - p
  {
    if p == SLOTS || !parts[p].opens then (names, mask)
    else if !parts[p].selects || !parts[p].validates then AssignParts(names, mask, parts, p + 1)
    else
      var (name, m) := Assign(mask, names[p], parts[p].mounts);
      AssignParts(names[p := name], m, parts, p + 1)
  }

  const NO_NAMES := ["", "", "", "", ""]

  /** usb_msd_install: the names of the device and the mask afterwards. */
  function Installed(mask: bv32, io: Io): (seq<string>, bv32)
    requires io.Valid()
  {
    if !io.Reaches() then (NO_NAMES, mask)
    else if io.Whole() then
      var (name, m) := Assign(mask, "", io.wholeMounts);
      (NO_NAMES[0 := name], m)
    else AssignParts(NO_NAMES, mask, io.parts, 1)
  }

  /** usb_msd_uninstall from slot p on: the mask afterwards. */
  function Release(mask: bv32, names: seq<string>, p: nat := 0): bv32
    requires Wellformed(names) && p <= SLOTS
    decreases SLOTS - p
  {
    if p == SLOTS then mask
    else if names[p] == "" then Release(mask, names, p + 1)
    else Release(mask & !Mask(IndexOf(names[p])), names, p + 1)
  }

  // ---------- the calls ----------

  /** The variable behind mountp. */
  class MountPoints {
    var mask: bv32

    constructor ()
      ensures mask == 0
    {
      mask := 0;
    }
  }

  /** MSD_DEV_DATA_STRUCT */
  class MsdDevice {
    var deviceNamed: bool
    var managerNamed: bool
    var deviceOpen: bool
    const names: array<string>     // FS_NAME, up to the terminator
    const managerOpen: array<bool> // PM_FD_PTR
    const systemOpen: array<bool>  // FS_FD_PTR

    ghost predicate Shape() {
      names.Length == SLOTS && managerOpen.Length == SLOTS && systemOpen.Length == SLOTS
      && managerOpen != systemOpen
    }

    constructor ()
      ensures Shape() && fresh(names) && fresh(managerOpen) && fresh(systemOpen)
      ensures names[..] == NO_NAMES
    {
      deviceNamed, managerNamed, deviceOpen := false, false, false;
      names := new string[SLOTS](_ => "");
      managerOpen := new bool[SLOTS](_ => false);
      systemOpen := new bool[SLOTS](_ => false);
    }

    /** The search loop of msd_assign_drive_letter. */
    static method FindLetter(taken: bv32) returns (k: nat, mask: bv32)
      ensures k == LowestFree(taken) && mask == Mask(k)
    {
      hide Mask, Bit;
      FirstMask();
      mask, k := 1, 0;
      while k < LETTERS
        invariant k <= LETTERS && mask == Mask(k)
        invariant LowestFree(taken) == LowestFree(taken, k)
      {
        BitTest(taken, k, mask);
        if taken & mask == 0 {
          break;
        }
        MaskShift(k);
        mask := mask << 1;
        k := k + 1;
      }
    }

    /** msd_assign_drive_letter for the slot p of this device. */
    method AssignDriveLetter(p: nat, mount: MountPoints, mounts: bool) returns (ok: bool)
      requires Shape() && p < SLOTS
      modifies names, mount
      ensures var (name, m) := Assign(old(mount.mask), old(names[p]), mounts);
              names[..] == old(names[..])[p := name] && mount.mask == m
      ensures ok <==> mounts && LowestFree(old(mount.mask)) < LETTERS
    {
      hide Mask, LowestFree;
      var k, mask := FindLetter(mount.mask);
      if k == LETTERS {
        return false;
      }
      names[p] := [Letter(k), ':'];
      ok := mounts;
      if ok {
        mount.mask := mount.mask | mask;
      } else {
        names[p] := "";
      }
    }

    /** The partition loop of usb_msd_install. */
    method InstallParts(mount: MountPoints, io: Io)
      requires Shape() && io.Valid()
      modifies names, managerOpen, systemOpen, mount
      ensures (names[..], mount.mask) == AssignParts(old(names[..]), old(mount.mask), io.parts, 1)
    {
      hide Assign;
      var part := 1;
      while part <= 4
        invariant 1 <= part <= SLOTS
        invariant AssignParts(names[..], mount.mask, io.parts, part)
                  == AssignParts(old(names[..]), old(mount.mask), io.parts, 1)
      {
        managerOpen[part] := io.parts[part].opens;
        if !managerOpen[part] {
          return;
        }
        if !io.parts[part].selects {
          managerOpen[part] := false;
        } else if io.parts[part].validates {
          systemOpen[part] := AssignDriveLetter(part, mount, io.parts[part].mounts);
        }
        part := part + 1;
      }
    }

    /** usb_msd_install; io says which of the calls it makes succeed. */
    method Install(mount: MountPoints, io: Io)
      requires Shape() && io.Valid()
      modifies this, names, managerOpen, systemOpen, mount
      ensures (names[..], mount.mask) == Installed(old(mount.mask), io)
    {
      hide Assign, AssignParts;
      Clear();
      if !io.deviceInstalls {
        return;
      }
      deviceNamed := true;
      deviceOpen := io.deviceOpens;
      if !deviceOpen || !io.managerInstalls {
        return;
      }
      managerNamed := true;
      managerOpen[0] := io.managerOpens;
      if !managerOpen[0] {
        return;
      }
      if !io.partitionsRead || io.validPartitions == 0 {
        managerOpen[0] := false;
        managerNamed := false;
        systemOpen[0] := AssignDriveLetter(0, mount, io.wholeMounts);
      } else {
        InstallParts(mount, io);
      }
    }

    /** Everything but the class header is zeroed. */
    method Clear()
      requires Shape()
      modifies this, names, managerOpen, systemOpen
      ensures names[..] == NO_NAMES
    {
      deviceNamed, managerNamed, deviceOpen := false, false, false;
      forall p | 0 <= p < SLOTS {
        names[p] := "";
      }
      forall p | 0 <= p < SLOTS {
        managerOpen[p] := false;
      }
      forall p | 0 <= p < SLOTS {
        systemOpen[p] := false;
      }
    }

    /** usb_msd_uninstall; whether its calls fail makes no difference to the letters. */
    method Uninstall(mount: MountPoints)
      requires Shape() && Wellformed(names[..])
      modifies mount
      ensures mount.mask == Release(old(mount.mask), names[..])
    {
      hide Mask, Bit;
      for part := 0 to SLOTS
        invariant Release(mount.mask, names[..], part) == Release(old(mount.mask), names[..])
      {
        if names[part] != "" {
          var index := names[part][0] as nat - 'a' as nat;
          assert index == IndexOf(names[part]);
          mount.mask := mount.mask & !Mask(index);
        }
      }
    }
  }
}
