/** Disk layout: planned sizes (`crates/pertisk-disk/src/plan.rs`), the partitions that are written
    (`crates/pertisk-disk/src/install.rs`) and growth (`crates/pertisk-disk/src/ephemeral.rs`). */
module DiskLayout {

  const KIB: nat := 1024
  const MIB: nat := KIB * KIB
  const GIB: nat := KIB * MIB
  const SECTOR: nat := 512

  /** Sectors behind the last usable one: the backup partition table. */
  const BACKUP: nat := 33

  const U64_MAX: nat := 0xFFFF_FFFF_FFFF_FFFF

  // ----- planning

  datatype Role = Efi | BootA | BootB | Meta | State | Ephemeral

  datatype Size = Fixed(bytes: nat) | Rest

  datatype Part = Part(role: Role, size: Size)

  const DEFAULTS: seq<Part> := [
    Part(Efi, Fixed(512 * MIB)), Part(BootA, Fixed(768 * MIB)), Part(BootB, Fixed(768 * MIB)),
    Part(Meta, Fixed(32 * MIB)), Part(State, Fixed(GIB)), Part(Ephemeral, Rest)]

  /** The sum of the sizes that are known. */
  function Known(parts: seq<Part>): nat {
    if parts == [] then 0 else (match parts[0].size case Fixed(b) => b case Rest => 0) + Known(parts[1..])
  }

  function MinimumDiskSize(): nat { Known(DEFAULTS) + 256 * MIB + 2 * MIB }

  datatype Plan = Planned(parts: seq<Part>) | TooSmall(minimum: nat)

  function Filled(parts: seq<Part>, rest: nat): (r: seq<Part>)
    ensures |r| == |parts|
    ensures forall i :: 0 <= i < |r| ==>
              r[i] == if parts[i].size.Rest? then parts[i].(size := Fixed(rest)) else parts[i]
  {
    seq(|parts|, i requires 0 <= i < |parts| =>
      if parts[i].size.Rest? then parts[i].(size := Fixed(rest)) else parts[i])
  }

  function PlanOf(disk: nat): Plan {
    if disk < MinimumDiskSize() then TooSmall(MinimumDiskSize())
    else Planned(Filled(DEFAULTS, disk - (Known(DEFAULTS) + 2 * MIB)))
  }

  method PlanDisk(disk: nat) returns (plan: Plan)
    ensures plan == PlanOf(disk)
    ensures var mib := 1024 * 1024;
            plan == if disk < 3362 * mib then TooSmall(3362 * mib)
                    else Planned([Part(Efi, Fixed(512 * mib)), Part(BootA, Fixed(768 * mib)),
                                  Part(BootB, Fixed(768 * mib)), Part(Meta, Fixed(32 * mib)),
                                  Part(State, Fixed(1024 * mib)), Part(Ephemeral, Fixed(disk - 3106 * mib))])
  {
    PlanInFull(disk);
    var minimum := MinimumDiskSize();
    if disk < minimum {
      return TooSmall(minimum);
    }
    var parts := DEFAULTS;
    var fixed := Known(parts);
    var remaining := if disk >= fixed + 2 * MIB then disk - (fixed + 2 * MIB) else 0;
    for k := 0 to |parts|
      invariant |parts| == |DEFAULTS|
      invariant forall i :: 0 <= i < k ==> parts[i] == Filled(DEFAULTS, remaining)[i]
      invariant forall i :: k <= i < |parts| ==> parts[i] == DEFAULTS[i]
    {
      if parts[k].size.Rest? {
        parts := parts[k := parts[k].(size := Fixed(remaining))];
      }
    }
    assert parts == Filled(DEFAULTS, remaining);
    plan := Planned(parts);
  }

  lemma KnownDefaults()
    ensures Known(DEFAULTS) == 3104 * MIB
  {
    assert DEFAULTS[1..][1..][1..][1..][1..] == [Part(Ephemeral, Rest)];
    assert DEFAULTS[1..][1..][1..][1..] == [Part(State, Fixed(GIB)), Part(Ephemeral, Rest)];
    assert Known([Part(Ephemeral, Rest)]) == 0;
    assert Known(DEFAULTS[1..][1..][1..][1..]) == GIB;
    assert Known(DEFAULTS[1..][1..][1..]) == 32 * MIB + GIB;
    assert Known(DEFAULTS[1..][1..]) == 800 * MIB + GIB;
  }

  lemma PlanInFull(disk: nat)
    ensures PlanOf(disk)
         == if disk < 3362 * MIB then TooSmall(3362 * MIB)
            else Planned([Part(Efi, Fixed(512 * MIB)), Part(BootA, Fixed(768 * MIB)), Part(BootB, Fixed(768 * MIB)),
                          Part(Meta, Fixed(32 * MIB)), Part(State, Fixed(1024 * MIB)),
                          Part(Ephemeral, Fixed(disk - 3106 * MIB))])
  {
    KnownDefaults();
  }

  /** The sizes of the planned partitions, in order. */
  lemma PlannedSizes(disk: nat)
    requires disk >= MinimumDiskSize()
    ensures PlanOf(disk).Planned? && |PlanOf(disk).parts| == 6
    ensures var p := PlanOf(disk).parts;
            && (forall i :: 0 <= i < 6 ==> p[i].size.Fixed? && p[i].role == DEFAULTS[i].role)
            && (forall i :: 0 <= i < 5 ==> p[i] == DEFAULTS[i])
            && p[5].size.bytes == disk - 3106 * MIB >= 256 * MIB
  {
    KnownDefaults();
  }

  lemma {:induction false} KnownFrom(parts: seq<Part>, k: nat)
    requires k < |parts|
    ensures Known(parts[k..]) == (match parts[k].size case Fixed(b) => b case Rest => 0) + Known(parts[k + 1..])
  {
    assert parts[k..][1..] == parts[k + 1..];
  }

  /** A plan uses the whole disk but two MiB, with at least 256 MiB for the last partition. */
  lemma PlanUsesTheDisk(disk: nat)
    requires disk >= MinimumDiskSize()
    ensures Known(PlanOf(disk).parts) == disk - 2 * MIB
    ensures PlanOf(disk).parts[5].role == Ephemeral && PlanOf(disk).parts[5].size.bytes >= 256 * MIB
  {
    PlannedSizes(disk);
    var p := PlanOf(disk).parts;
    assert p[0..] == p && p[6..] == [];
    for k := 0 to 6
      invariant Known(p) == Known(p[k..]) + if k == 0 then 0 else if k == 1 then 512 * MIB
                else if k == 2 then 1280 * MIB else if k == 3 then 2048 * MIB else if k == 4 then 2080 * MIB
                else if k == 5 then 3104 * MIB else disk - 2 * MIB
    {
      KnownFrom(p, k);
      assert k < 5 ==> p[k] == DEFAULTS[k];
    }
  }

  // ----- the written table

  datatype Extent = Extent(start: nat, length: nat)

  function Mebibytes(bytes: nat): nat { (bytes + MIB - 1) / MIB }

  function Bytes(p: Part): nat { match p.size case Fixed(b) => b case Rest => 0 }

  /** Each partition is as many whole MiB as its size needs, and starts where the last one ends. */
  function Laid(parts: seq<Part>, start: nat): seq<Extent> {
    if parts == [] then []
    else
      var length := Mebibytes(Bytes(parts[0])) * MIB;
      [Extent(start, length)] + Laid(parts[1..], start + length)
  }

  function EndOf(extents: seq<Extent>, start: nat): nat {
    if extents == [] then start else EndOf(extents[1..], extents[0].start + extents[0].length)
  }

  /** One right after the other from the first MiB on, each in the fewest whole MiB that hold it. */
  predicate Tight(parts: seq<Part>, extents: seq<Extent>) {
    && |extents| == |parts|
    && forall i :: 0 <= i < |parts| ==>
         && extents[i].start == (if i == 0 then 1048576 else extents[i - 1].start + extents[i - 1].length)
         && extents[i].length % 1048576 == 0
         && Bytes(parts[i]) <= extents[i].length < Bytes(parts[i]) + 1048576
  }

  /** `write_gpt_sgdisk`: one extent per partition from the first MiB on; `None` for a partition
      without a size is an error of the source. */
  method WriteGpt(parts: seq<Part>) returns (ok: bool, extents: seq<Extent>)
    ensures ok <==> forall i :: 0 <= i < |parts| ==> parts[i].size.Fixed?
    ensures ok ==> extents == Laid(parts, MIB) && Tight(parts, extents)
  {
    hide Laid, Mebibytes, Tight, MIB;
    extents := [];
    var next: nat := MIB;
    assert parts[0..] == parts && extents + Laid(parts, MIB) == Laid(parts, MIB);
    for k := 0 to |parts|
      invariant extents + Laid(parts[k..], next) == Laid(parts, MIB)
      invariant forall i :: 0 <= i < k ==> parts[i].size.Fixed?
    {
      if parts[k].size.Rest? {
        return false, extents;
      }
      LaidStep(extents, parts, k, next);
      var mib: nat := Mebibytes(parts[k].size.bytes);
      extents := extents + [Extent(next, mib * MIB)];
      next := next + mib * MIB;
    }
    ok := true;
    NothingMore(extents, parts[|parts|..], next);
    LaidTightly(parts);
  }

  lemma NothingMore(extents: seq<Extent>, rest: seq<Part>, next: nat)
    requires rest == []
    ensures extents + Laid(rest, next) == extents
  {
  }

  lemma LaidStep(extents: seq<Extent>, parts: seq<Part>, k: nat, next: nat)
    requires k < |parts| && parts[k].size.Fixed?
    ensures var length := Mebibytes(parts[k].size.bytes) * MIB;
            extents + Laid(parts[k..], next) == extents + [Extent(next, length)] + Laid(parts[k + 1..], next + length)
  {
    hide Mebibytes;
    assert parts[k..][1..] == parts[k + 1..];
  }

  lemma LaidTightly(parts: seq<Part>)
    ensures Tight(parts, Laid(parts, MIB))
  {
    hide Laid, Mebibytes, InARow;
    LaidInARow(parts, MIB);
    var e := Laid(parts, MIB);
    forall i | 0 <= i < |parts|
      ensures e[i].start == (if i == 0 then MIB else e[i - 1].start + e[i - 1].length)
      ensures e[i].length % MIB == 0 && Bytes(parts[i]) <= e[i].length < Bytes(parts[i]) + MIB
    {
      LaidAt(parts, MIB, i);
      WholeLengths(parts, MIB, i);
      Rounding(Bytes(parts[i]));
    }
  }

  lemma {:induction false} LaidAt(parts: seq<Part>, start: nat, i: nat)
    requires i < |parts| == |Laid(parts, start)|
    ensures var e := Laid(parts, start);
            && e[i].length == Mebibytes(Bytes(parts[i])) * MIB
            && e[i].start == if i == 0 then start else e[i - 1].start + e[i - 1].length
    decreases i
  {
    if i > 0 {
      LaidAt(parts[1..], start + Mebibytes(Bytes(parts[0])) * MIB, i - 1);
    }
  }

  /** Extents in a row: each starts where the one before ends. */
  predicate InARow(extents: seq<Extent>, start: nat) {
    extents == []
    || (extents[0].start == start && InARow(extents[1..], extents[0].start + extents[0].length))
  }

  lemma {:induction false} LaidInARow(parts: seq<Part>, start: nat)
    requires start % MIB == 0
    ensures InARow(Laid(parts, start), start) && |Laid(parts, start)| == |parts|
    ensures forall i :: 0 <= i < |parts| ==>
              var e := Laid(parts, start)[i]; e.length >= Bytes(parts[i]) && e.start >= start && e.start % MIB == 0
    decreases |parts|
  {
    if parts != [] {
      var length := Mebibytes(Bytes(parts[0])) * MIB;
      Rounding(Bytes(parts[0]));
      Aligned(start, Mebibytes(Bytes(parts[0])));
      LaidInARow(parts[1..], start + length);
      forall i | 0 <= i < |parts|
        ensures var e := Laid(parts, start)[i]; e.length >= Bytes(parts[i]) && e.start >= start && e.start % MIB == 0
      {
        if i > 0 {
          assert Laid(parts, start)[i] == Laid(parts[1..], start + length)[i - 1];
          assert parts[i] == parts[1..][i - 1];
        }
      }
    }
  }

  lemma Rounding(bytes: nat)
    ensures bytes <= Mebibytes(bytes) * MIB < bytes + MIB
    ensures bytes % MIB == 0 ==> Mebibytes(bytes) * MIB == bytes
  {
  }

  lemma Aligned(start: nat, n: nat)
    requires start % MIB == 0
    ensures (start + n * MIB) % MIB == 0
  {
  }

  lemma {:induction false} NoOverlap(extents: seq<Extent>, start: nat, i: nat, j: nat)
    requires InARow(extents, start) && i < j < |extents|
    ensures start <= extents[i].start && extents[i].start + extents[i].length <= extents[j].start
    decreases |extents|
  {
    if i > 0 {
      NoOverlap(extents[1..], extents[0].start + extents[0].length, i - 1, j - 1);
    } else if j > 1 {
      NoOverlap(extents[1..], extents[0].start + extents[0].length, 0, j - 1);
    }
  }

  /** Where the layout of a plan ends. */
  lemma PlanEnd(disk: nat)
    requires disk >= MinimumDiskSize()
    ensures EndOf(Laid(PlanOf(disk).parts, MIB), MIB) == (Mebibytes(disk) - 1) * MIB
  {
    hide *;
    PlannedLengths(disk);
    var p := PlanOf(disk).parts;
    FixedEnd(p);
    EndOfLaid(p, 5, 3105 * MIB);
    assert p[6..] == [];
    NothingLaid(3105 * MIB + Mebibytes(disk - 3106 * MIB) * MIB);
    MebibytesLess(disk, 3106);
  }

  lemma FixedEnd(p: seq<Part>)
    requires |p| == 6 && Mebibytes(Bytes(p[0])) == 512 && Mebibytes(Bytes(p[1])) == 768
    requires Mebibytes(Bytes(p[2])) == 768 && Mebibytes(Bytes(p[3])) == 32 && Mebibytes(Bytes(p[4])) == 1024
    ensures EndOf(Laid(p, MIB), MIB) == EndOf(Laid(p[5..], 3105 * MIB), 3105 * MIB)
  {
    hide EndOf, Laid, Mebibytes, Bytes;
    assert p[0..] == p;
    EndOfLaid(p, 0, MIB);
    EndOfLaid(p, 1, 513 * MIB);
    EndOfLaid(p, 2, 1281 * MIB);
    EndOfLaid(p, 3, 2049 * MIB);
    EndOfLaid(p, 4, 2081 * MIB);
  }

  lemma NothingLaid(start: nat)
    ensures EndOf(Laid([], start), start) == start
  {
  }

  lemma PlannedLengths(disk: nat)
    requires disk >= MinimumDiskSize()
    ensures PlanOf(disk).Planned? && |PlanOf(disk).parts| == 6
    ensures var p := PlanOf(disk).parts;
            && Mebibytes(Bytes(p[0])) == 512 && Mebibytes(Bytes(p[1])) == 768 && Mebibytes(Bytes(p[2])) == 768
            && Mebibytes(Bytes(p[3])) == 32 && Mebibytes(Bytes(p[4])) == 1024
            && disk >= 3106 * MIB && Bytes(p[5]) == disk - 3106 * MIB
  {
    hide Mebibytes, PlanOf, MinimumDiskSize;
    PlannedSizes(disk);
    FixedAreWhole();
  }

  lemma FixedAreWhole()
    ensures Mebibytes(512 * MIB) == 512 && Mebibytes(768 * MIB) == 768 && Mebibytes(32 * MIB) == 32
    ensures Mebibytes(GIB) == 1024
  {
  }

  lemma EndOfLaid(parts: seq<Part>, k: nat, start: nat)
    requires k < |parts|
    ensures var next := start + Mebibytes(Bytes(parts[k])) * MIB;
            EndOf(Laid(parts[k..], start), start) == EndOf(Laid(parts[k + 1..], next), next)
  {
    assert parts[k..][1..] == parts[k + 1..];
    var next := start + Mebibytes(Bytes(parts[k])) * MIB;
    assert Laid(parts[k..], start)[1..] == Laid(parts[k + 1..], next);
  }

  lemma MebibytesLess(bytes: nat, n: nat)
    requires bytes >= n * MIB
    ensures Mebibytes(bytes - n * MIB) == Mebibytes(bytes) - n
  {
  }

  /** The partitions of every plan lie in order behind the first MiB, do not overlap, are as large
      as planned and end before the disk does. */
  lemma PlanFitsTheDisk(disk: nat)
    requires disk >= MinimumDiskSize()
    ensures var parts := PlanOf(disk).parts;
            var extents := Laid(parts, MIB);
            && |extents| == 6
            && (forall i :: 0 <= i < 6 ==> extents[i].start >= MIB && extents[i].length >= Bytes(parts[i]))
            && (forall i, j :: 0 <= i < j < 6 ==> extents[i].start + extents[i].length <= extents[j].start)
            && extents[5].start + extents[5].length <= disk
  {
    var parts := PlanOf(disk).parts;
    var extents := Laid(parts, MIB);
    PlannedSizes(disk);
    LaidInARow(parts, MIB);
    forall i, j | 0 <= i < j < 6 ensures extents[i].start + extents[i].length <= extents[j].start {
      NoOverlap(extents, MIB, i, j);
    }
    PlanEnd(disk);
    LastEnd(extents, MIB);
    Rounding(disk);
  }

  lemma {:induction false} LastEnd(extents: seq<Extent>, start: nat)
    requires extents != []
    ensures var last := extents[|extents| - 1]; EndOf(extents, start) == last.start + last.length
    decreases |extents|
  {
    if |extents| > 1 {
      LastEnd(extents[1..], extents[0].start + extents[0].length);
    }
  }

  /** Does the last partition end before the backup table? The tool refuses it otherwise. */
  predicate SparesBackup(disk: nat)
    requires PlanOf(disk).Planned?
  {
    EndOf(Laid(PlanOf(disk).parts, MIB), MIB) + BACKUP * SECTOR <= disk
  }

  /** Rounding up leaves room for the backup table exactly if the disk is whole MiB or at least
      33 sectors more. */
  lemma RoundingSparesBackup(disk: nat)
    requires disk >= MinimumDiskSize()
    ensures PlanOf(disk).Planned?
    ensures SparesBackup(disk) <==> disk % MIB == 0 || disk % MIB >= 33 * 512
  {
    PlannedSizes(disk);
    PlanEnd(disk);
    Remainder(disk);
  }

  lemma Remainder(disk: nat)
    ensures Mebibytes(disk) * MIB == disk - disk % MIB + if disk % MIB == 0 then 0 else MIB
  {
  }

  // ----- growing

  const SLACK: nat := 2048

  /** No disk has more sectors: its size in bytes fits the type. */
  const MAX_SECTORS: nat := U64_MAX / SECTOR

  function SaturatingSub(a: nat, b: nat): nat { if a >= b then a - b else 0 }

  function SaturatingAdd(a: nat, b: nat): nat { if a + b <= U64_MAX then a + b else U64_MAX }

  /** The decision of `grow_ephemeral_partition`, in sectors; its last addition could overflow. */
  datatype Decision = Grow | Keep | Overflow

  function Decide(disk: nat, start: nat, size: nat): Decision {
    var end := SaturatingAdd(start, size);
    if end + SLACK > U64_MAX then Overflow
    else if end + SLACK >= SaturatingSub(disk, SLACK) then Keep
    else Grow
  }

  /** The decision in plain numbers: the last addition overflows 64 bits, or there are more than 4096
      free sectors behind the partition, or it stays. */
  lemma {:induction false} DecisionIs(disk: nat, start: nat, size: nat)
    requires disk <= 0xFFFF_FFFF_FFFF_FFFF / 512
    ensures Decide(disk, start, size) == Overflow <==> start + size + 2048 > 0xFFFF_FFFF_FFFF_FFFF
    ensures Decide(disk, start, size) == Grow <==> start + size + 4096 < disk
  {
  }

  /** The tool ends a partition without given end at the last usable sector, or at the last MiB
      boundary before it. */
  predicate DefaultEnd(disk: nat, end: nat) { end + BACKUP <= disk && disk < end + BACKUP + SLACK }

  /** The partition after a run, from the same start; `toolEnd` is where the tool puts its end. */
  method GrowEphemeral(disk: nat, start: nat, size: nat, toolEnd: nat) returns (grew: bool, newSize: nat)
    requires disk <= MAX_SECTORS && start + size + SLACK <= U64_MAX && DefaultEnd(disk, toolEnd)
    ensures grew <==> start + size + 4096 < disk
    ensures grew ==> start + newSize == toolEnd && newSize > size
    ensures !grew ==> newSize == size
    ensures Decide(disk, start, newSize) == Keep
  {
    var usableEnd := SaturatingSub(disk, SLACK);
    var partEnd := SaturatingAdd(start, size);
    if partEnd + SLACK >= usableEnd {
      return false, size;
    }
    grew, newSize := true, toolEnd - start;
  }

  /** A freshly written disk is not grown, and once its hypervisor enlarges it, it is, exactly if
      the new size is more than two MiB behind the old layout's end. */
  lemma GrowAfterInstall(disk: nat, larger: nat)
    requires disk >= MinimumDiskSize() && disk % SECTOR == 0 && larger >= disk / SECTOR && larger <= MAX_SECTORS
    ensures PlanOf(disk).Planned? && |Laid(PlanOf(disk).parts, MIB)| == 6
    ensures var last := Laid(PlanOf(disk).parts, MIB)[5];
            var start, size := last.start / SECTOR, last.length / SECTOR;
            && start + size == (Mebibytes(disk) - 1) * 2048
            && Decide(disk / SECTOR, start, size) == Keep
            && (Decide(larger, start, size) == Grow <==> (Mebibytes(disk) + 1) * 2048 < larger)
  {
    PlannedSizes(disk);
    var extents := Laid(PlanOf(disk).parts, MIB);
    LaidInARow(PlanOf(disk).parts, MIB);
    PlanEnd(disk);
    LastEnd(extents, MIB);
    var last := extents[5];
    LastLength(disk);
    Rounding(disk);
    InSectors(last.start, last.length, Mebibytes(disk) - 1);
  }

  lemma LastLength(disk: nat)
    requires disk >= MinimumDiskSize()
    ensures |Laid(PlanOf(disk).parts, MIB)| == 6 && Laid(PlanOf(disk).parts, MIB)[5].length % MIB == 0
  {
    PlannedSizes(disk);
    LaidInARow(PlanOf(disk).parts, MIB);
    WholeLengths(PlanOf(disk).parts, MIB, 5);
  }

  lemma {:induction false} WholeLengths(parts: seq<Part>, start: nat, i: nat)
    requires i < |parts| == |Laid(parts, start)|
    ensures Laid(parts, start)[i].length % MIB == 0
    decreases i
  {
    var length := Mebibytes(Bytes(parts[0])) * MIB;
    if i == 0 {
      Aligned(0, Mebibytes(Bytes(parts[0])));
    } else {
      WholeLengths(parts[1..], start + length, i - 1);
    }
  }

  lemma InSectors(start: nat, length: nat, n: nat)
    requires start % MIB == 0 && length % MIB == 0 && start + length == n * MIB
    ensures start / SECTOR + length / SECTOR == n * SLACK
  {
  }
}
