/**
 * The node-capacity query of the Xen handlers: the number of cores and the
 * memory (in MiB) left for instances once the hypervisor's own share is
 * subtracted.
 */
module Resources {
  import opened NcTypes

  const TwoTo63: int := 0x8000_0000_0000_0000
  const TwoTo64: int := 0x1_0000_0000_0000_0000

  type uint32 = x: int | 0 <= x < 0x1_0000_0000
  type uint64 = x: int | 0 <= x < 0x1_0000_0000_0000_0000
  type int64 = x: int | -0x8000_0000_0000_0000 <= x < 0x8000_0000_0000_0000

  /** What the hypervisor reports about the node: total memory in KiB (an
      unsigned long) and the number of CPUs (an unsigned int). */
  datatype NodeInfo = NodeInfo(memoryKiB: uint64, cpus: uint32)

  /** The capacity the node offers to instances. */
  datatype Capacity = Capacity(cores: int, memoryMiB: int)

  /** MiB kept back for the hypervisor on top of dom0's reserved minimum. */
  const Overhead: int := 32

  /** The value a long long receives from an unsigned 64-bit computation:
      the mathematical value reduced modulo 2^64 into the signed range. */
  function Int64Of(x: int): (r: int)
    ensures -TwoTo63 <= r < TwoTo63
    ensures (x - r) % TwoTo64 == 0
  {
    var m := x % TwoTo64;
    if m >= TwoTo63 then m - TwoTo64 else m
  }

  /** The capacity query. `info` is the node query's answer (None when it
      fails) and `dom0MinMem` the reserved dom0 memory read from the
      hypervisor configuration (None when the value is not found).
      In C, `memory/1024 - 32 - dom0_min_mem` mixes an unsigned long with a
      long long. On an LP64 platform, where both are 64 bits wide, a long
      long cannot hold every unsigned long, so both operands become
      unsigned long long and the difference is computed modulo
      2^64 and then stored in a long long; nothing clamps it at zero. (On a
      platform with a 32-bit unsigned long the operands would instead be
      converted to long long; that platform is not modelled.) */
  function GetResources(info: Option<NodeInfo>, dom0MinMem: Option<int64>): (r: Result<Capacity>)
    ensures r.Failure? <==> info.None? || dom0MinMem.None?
    ensures r.Failure? ==> r.status == ErrorFatal
    ensures r.Success? ==> r.value.cores == info.value.cpus
    ensures r.Success? ==> -TwoTo63 <= r.value.memoryMiB < TwoTo63
    ensures r.Success? ==>
      (info.value.memoryKiB / 1024 - r.value.memoryMiB - Overhead - dom0MinMem.value) % TwoTo64 == 0
  {
    if info.None? then Failure(ErrorFatal)
    else if dom0MinMem.None? then Failure(ErrorFatal)
    else
      Success(Capacity(info.value.cpus,
                       Int64Of(info.value.memoryKiB / 1024 - Overhead - dom0MinMem.value)))
  }

  /** Two values of the signed 64-bit range that agree modulo 2^64 are equal. */
  lemma Int64Unique(a: int, b: int)
    requires -TwoTo63 <= a < TwoTo63 && -TwoTo63 <= b < TwoTo63
    requires (a - b) % TwoTo64 == 0
    ensures a == b
  {
  }

  /** Whenever the difference fits a long long, the reported memory is
      exactly total MiB minus the 32 MiB overhead minus dom0's reserve, with
      no clamping: it is negative when the reserve exceeds what is left. */
  lemma AvailableMemoryExact(info: NodeInfo, dom0MinMem: int64)
    requires -TwoTo63 <= info.memoryKiB / 1024 - Overhead - dom0MinMem < TwoTo63
    ensures GetResources(Some(info), Some(dom0MinMem)).Success?
    ensures GetResources(Some(info), Some(dom0MinMem)).value.memoryMiB
            == info.memoryKiB / 1024 - Overhead - dom0MinMem
  {
    var r := GetResources(Some(info), Some(dom0MinMem));
    var exact := info.memoryKiB / 1024 - Overhead - dom0MinMem;
    assert (exact - r.value.memoryMiB) % TwoTo64 == 0;
    Int64Unique(exact, r.value.memoryMiB);
  }

  /** A node with 4096 MiB whose dom0 keeps 256 MiB offers 3808 MiB. */
  lemma FourGiBNode(cpus: uint32)
    ensures GetResources(Some(NodeInfo(4096 * 1024, cpus)), Some(256))
            == Success(Capacity(cpus, 3808))
  {
    AvailableMemoryExact(NodeInfo(4096 * 1024, cpus), 256);
  }
}
