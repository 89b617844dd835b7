/** Usage counters with the checked 64-bit arithmetic of the storage policy, and
  * the limits they are measured against. */
module StorageUsage {

  const U64_MAX: nat := 0xFFFF_FFFF_FFFF_FFFF

  datatype Usage = Usage(bytes: nat, files: nat)
  {
    predicate FitsU64() { bytes <= U64_MAX && files <= U64_MAX }

    predicate AtMost(other: Usage) { bytes <= other.bytes && files <= other.files }

    function Plus(other: Usage): Usage { Usage(bytes + other.bytes, files + other.files) }

    function Minus(other: Usage): Usage
      requires other.AtMost(this)
    {
      Usage(bytes - other.bytes, files - other.files)
    }
  }

  function Nothing(): Usage { Usage(0, 0) }

  datatype Checked<+T> = Value(value: T) | ArithmeticOverflow

  function CheckedAdd(a: Usage, b: Usage): (r: Checked<Usage>)
    ensures r.Value? <==> a.Plus(b).FitsU64()
    ensures r.Value? ==> r.value == a.Plus(b)
  {
    if a.bytes + b.bytes > U64_MAX then ArithmeticOverflow
    else if a.files + b.files > U64_MAX then ArithmeticOverflow
    else Value(Usage(a.bytes + b.bytes, a.files + b.files))
  }

  function CheckedSub(a: Usage, b: Usage): (r: Checked<Usage>)
    ensures r.Value? <==> b.AtMost(a)
    ensures r.Value? ==> r.value.Plus(b) == a
  {
    if a.bytes < b.bytes then ArithmeticOverflow
    else if a.files < b.files then ArithmeticOverflow
    else Value(Usage(a.bytes - b.bytes, a.files - b.files))
  }

  function SaturatingSub(a: nat, b: nat): nat { if a >= b then a - b else 0 }

  function SaturatingAdd(a: nat, b: nat): nat { if a + b <= U64_MAX then a + b else U64_MAX }

  datatype Policy = Policy(maxBytes: nat, maxFiles: nat, minFreeBytes: nat, maxScanEntries: nat, maxPruneItems: nat)
  {
    predicate Validate() {
      && 0 < maxBytes && 0 < maxFiles && 0 < maxScanEntries && 0 < maxPruneItems
      && maxPruneItems <= maxScanEntries
      && maxBytes <= U64_MAX && maxFiles <= U64_MAX && minFreeBytes <= U64_MAX && maxScanEntries <= U64_MAX
    }
  }

  datatype LimitState = LimitState(
    overBytes: bool, bytesOver: nat, overFiles: bool, filesOver: nat,
    belowMinFreeSpace: bool, freeSpaceShortfall: nat, withinLimits: bool)

  function Evaluate(policy: Policy, usage: Usage, available: nat): (s: LimitState)
    ensures s.withinLimits <==>
      usage.AtMost(Usage(policy.maxBytes, policy.maxFiles)) && policy.minFreeBytes <= available
  {
    var bytesOver := SaturatingSub(usage.bytes, policy.maxBytes);
    var filesOver := SaturatingSub(usage.files, policy.maxFiles);
    var shortfall := SaturatingSub(policy.minFreeBytes, available);
    LimitState(bytesOver > 0, bytesOver, filesOver > 0, filesOver, shortfall > 0, shortfall,
               bytesOver == 0 && filesOver == 0 && shortfall == 0)
  }

  datatype CapacityVerdict = Granted(projected: Usage) | InsufficientCapacity | Overflow

  /** The decision of `ensure_capacity_with_reservations` once the tree is measured. */
  function EnsureCapacity(policy: Policy, measured: Usage, available: nat, reserved: Usage,
          requested: Usage): (v: CapacityVerdict)
    requires policy.Validate()
    ensures v.Granted? <==>
      && measured.Plus(reserved).Plus(requested).AtMost(Usage(policy.maxBytes, policy.maxFiles))
      && policy.minFreeBytes <= SaturatingSub(available, reserved.Plus(requested).bytes)
  {
    match CheckedAdd(reserved, requested)
    case ArithmeticOverflow => Overflow
    case Value(write) =>
      match CheckedAdd(measured, write)
      case ArithmeticOverflow => Overflow
      case Value(projected) =>
        var free := SaturatingSub(available, write.bytes);
        if Evaluate(policy, projected, free).withinLimits then Granted(projected) else InsufficientCapacity
  }

  // ----- The arithmetic and the limits, in numbers -----

  /** Sums are those of unsigned 64-bit counters, or refused. */
  lemma CheckedAddMeans(a: Usage, b: Usage)
    ensures CheckedAdd(a, b)
      == if a.bytes + b.bytes < 0x1_0000_0000_0000_0000 && a.files + b.files < 0x1_0000_0000_0000_0000
         then Value(Usage(a.bytes + b.bytes, a.files + b.files)) else ArithmeticOverflow
  {
  }

  /** A valid policy allows something, lets at least one file be deleted and no more files
    * than it lets be scanned, and is made of 64-bit numbers. */
  lemma ValidateMeans(p: Policy)
    ensures p.Validate() <==>
      && 1 <= p.maxBytes < 0x1_0000_0000_0000_0000 && 1 <= p.maxFiles < 0x1_0000_0000_0000_0000
      && 1 <= p.maxPruneItems <= p.maxScanEntries < 0x1_0000_0000_0000_0000
      && p.minFreeBytes < 0x1_0000_0000_0000_0000
  {
  }

  /** `over` is by how much `used` is more than `limit`, if at all. */
  predicate Exceeds(used: nat, limit: nat, over: nat) { if used > limit then used == limit + over else over == 0 }

  /** Each limit is reported as exceeded exactly when it is, and by how much. */
  lemma EvaluateMeans(policy: Policy, usage: Usage, available: nat)
    ensures
      var s := Evaluate(policy, usage, available);
      && (s.overBytes <==> usage.bytes > policy.maxBytes) && Exceeds(usage.bytes, policy.maxBytes, s.bytesOver)
      && (s.overFiles <==> usage.files > policy.maxFiles) && Exceeds(usage.files, policy.maxFiles, s.filesOver)
      && (s.belowMinFreeSpace <==> policy.minFreeBytes > available)
      && Exceeds(policy.minFreeBytes, available, s.freeSpaceShortfall)
      && (s.withinLimits <==>
            usage.bytes <= policy.maxBytes && usage.files <= policy.maxFiles && policy.minFreeBytes <= available)
  {
  }

  /** A request is granted when usage, reservations and it stay within the limits together and
    * leave the free space that has to stay; what is granted is projected as their sum. */
  lemma EnsureCapacityMeans(policy: Policy, measured: Usage, available: nat, reserved: Usage, requested: Usage)
    requires policy.Validate()
    ensures
      var bytes := measured.bytes + reserved.bytes + requested.bytes;
      var files := measured.files + reserved.files + requested.files;
      var overflows := bytes >= 0x1_0000_0000_0000_0000 || files >= 0x1_0000_0000_0000_0000;
      var left := available - reserved.bytes - requested.bytes;
      EnsureCapacity(policy, measured, available, reserved, requested)
      == if overflows then Overflow
         else if bytes <= policy.maxBytes && files <= policy.maxFiles
           && (policy.minFreeBytes <= left || policy.minFreeBytes == 0) then
           Granted(Usage(bytes, files))
         else InsufficientCapacity
  {
  }

  // ----- Sums -----

  function Total(us: seq<Usage>): Usage {
    if us == [] then Nothing() else us[0].Plus(Total(us[1..]))
  }

  lemma {:induction false} TotalChange(us: seq<Usage>, vs: seq<Usage>, k: nat)
    requires |us| == |vs| && k < |us|
    requires forall i :: 0 <= i < |us| && i != k ==> us[i] == vs[i]
    ensures Total(us).Plus(vs[k]) == Total(vs).Plus(us[k])
  {
    if k == 0 {
      assert us[1..] == vs[1..];
    } else {
      TotalChange(us[1..], vs[1..], k - 1);
    }
  }

  lemma {:induction false} TotalMonotone(us: seq<Usage>, vs: seq<Usage>)
    requires |us| == |vs|
    requires forall i :: 0 <= i < |us| ==> us[i].AtMost(vs[i])
    ensures Total(us).AtMost(Total(vs))
  {
    if us != [] {
      TotalMonotone(us[1..], vs[1..]);
    }
  }

  function Pairwise(us: seq<Usage>, vs: seq<Usage>): (ws: seq<Usage>)
    requires |us| == |vs|
    ensures |ws| == |us|
    ensures forall i :: 0 <= i < |ws| ==> ws[i] == us[i].Plus(vs[i])
  {
    if us == [] then [] else [us[0].Plus(vs[0])] + Pairwise(us[1..], vs[1..])
  }

  lemma {:induction false} TotalSum(us: seq<Usage>, vs: seq<Usage>)
    requires |us| == |vs|
    ensures Total(Pairwise(us, vs)) == Total(us).Plus(Total(vs))
  {
    if us == [] {
      assert vs == [] && Pairwise(us, vs) == [];
      assert Total(us) == Nothing() && Total(vs) == Nothing() && Total(Pairwise(us, vs)) == Nothing();
    } else {
      TotalSum(us[1..], vs[1..]);
      TotalCons(us[0].Plus(vs[0]), Pairwise(us[1..], vs[1..]));
      PlusExchange(us[0], vs[0], Total(us[1..]), Total(vs[1..]));
    }
  }

  lemma PlusExchange(a: Usage, b: Usage, c: Usage, d: Usage)
    ensures a.Plus(b).Plus(c.Plus(d)) == a.Plus(c).Plus(b.Plus(d))
  {
  }

  lemma TotalCons(u: Usage, us: seq<Usage>)
    ensures Total([u] + us) == u.Plus(Total(us))
  {
    assert ([u] + us)[1..] == us;
  }

  lemma {:induction false} TotalAppend(us: seq<Usage>, u: Usage)
    ensures Total(us + [u]) == Total(us).Plus(u)
  {
    if us == [] {
    } else {
      assert (us + [u])[1..] == us[1..] + [u];
      TotalAppend(us[1..], u);
    }
  }

  lemma {:induction false} TotalZero(us: seq<Usage>)
    requires forall i :: 0 <= i < |us| ==> us[i] == Nothing()
    ensures Total(us) == Nothing()
  {
    if us != [] {
      assert us[0] == Nothing();
      forall i | 0 <= i < |us| - 1 ensures us[1..][i] == Nothing() {
        assert us[i + 1] == Nothing();
      }
      TotalZero(us[1..]);
    }
  }
}
