/**
 The remote launcher (backend/driver.py): every host storage that an argument views is uploaded once, the
 arguments are relocated into the uploaded copies, and after the kernel has run each copy is read back and
 freed. Host memory ends up as if the kernel had run on it directly.
 */
module RemoteLaunch {
  import opened Wrappers

  type Byte = bv8

  /** Blocks of memory by their start address: host storages by data_ptr, or remote allocations. */
  type Memory = map<int, seq<Byte>>

  /** Two blocks do not overlap, and no byte has the address zero. */
  ghost predicate ValidMemory(mem: Memory) {
    && (forall b :: b in mem ==> b > 0 || (b == 0 && mem[b] == []))
    && (forall b, c :: b in mem && c in mem && b != c ==> b + |mem[b]| <= c || c + |mem[c]| <= b)
  }

  predicate Covers(mem: Memory, b: int, p: int) {
    b in mem && b <= p < b + |mem[b]|
  }

  // ------------------------------------------------------------------
  // Kernels
  // ------------------------------------------------------------------

  /** An argument as the launcher passes it on. `Idle` is the address of a view without elements. */
  datatype KernelArg = Ptr(address: int) | Idle(address: int) | I32(value: int) | F32(bits: int)

  /**
   An argument as a kernel can observe it: a place in one of the buffers it was given, a number, or an address
   that tells it nothing, because it lies in no buffer or because the view it belongs to has no element to reach.
   */
  datatype Place = At(buffer: nat, offset: int) | Dangling | Number(arg: KernelArg)

  /** A kernel computes the new contents of its buffers. */
  type Kernel = (seq<Place>, seq<seq<Byte>>) -> seq<seq<Byte>>

  ghost predicate KeepsSizes(k: Kernel) {
    forall ps, bufs :: |k(ps, bufs)| == |bufs| && forall i :: 0 <= i < |bufs| ==> |k(ps, bufs)[i]| == |bufs[i]|
  }

  /** The block an address lies in. */
  function Locate(mem: Memory, p: int): (r: Option<int>)
    requires ValidMemory(mem)
    ensures r.Some? ==> Covers(mem, r.value, p)
    ensures r.None? ==> forall b :: !Covers(mem, b, p)
  {
    if exists b :: b in mem && Covers(mem, b, p) then
      var b :| b in mem && Covers(mem, b, p);
      Some(b)
    else None
  }

  lemma LocateIs(mem: Memory, b: int, p: int)
    requires ValidMemory(mem) && Covers(mem, b, p)
    ensures Locate(mem, p) == Some(b)
  {
  }

  /** The block an argument points into. */
  function Target(mem: Memory, arg: KernelArg): (t: Option<int>)
    requires ValidMemory(mem)
    ensures t.Some? ==> t.value in mem
  {
    if arg.Ptr? then Locate(mem, arg.address) else None
  }

  function AddBuffer(bs: seq<int>, t: Option<int>): seq<int> {
    if t.Some? && t.value !in bs then bs + [t.value] else bs
  }

  /** The blocks the arguments point into, in the order in which they first occur. */
  function Buffers(mem: Memory, args: seq<KernelArg>): (bs: seq<int>)
    requires ValidMemory(mem)
    ensures forall i :: 0 <= i < |bs| ==> bs[i] in mem
    ensures forall i, j :: 0 <= i < j < |bs| ==> bs[i] != bs[j]
  {
    if args == [] then []
    else AddBuffer(Buffers(mem, args[..|args| - 1]), Target(mem, args[|args| - 1]))
  }

  function IndexOf(bs: seq<int>, b: int): (i: nat)
    requires b in bs
    ensures i < |bs| && bs[i] == b
  {
    if bs[0] == b then 0 else 1 + IndexOf(bs[1..], b)
  }

  function PlaceOf(mem: Memory, bs: seq<int>, arg: KernelArg): Place
    requires ValidMemory(mem)
  {
    if arg.Idle? then Dangling
    else if !arg.Ptr? then Number(arg)
    else
      var b := Target(mem, arg);
      if b.Some? && b.value in bs then At(IndexOf(bs, b.value), arg.address - b.value) else Dangling
  }

  function Places(mem: Memory, args: seq<KernelArg>): (ps: seq<Place>)
    requires ValidMemory(mem)
    ensures |ps| == |args|
  {
    seq(|args|, i requires 0 <= i < |args| => PlaceOf(mem, Buffers(mem, args), args[i]))
  }

  function Contents(mem: Memory, bs: seq<int>): (c: seq<seq<Byte>>)
    requires forall i :: 0 <= i < |bs| ==> bs[i] in mem
    ensures |c| == |bs| && forall i :: 0 <= i < |bs| ==> c[i] == mem[bs[i]]
  {
    seq(|bs|, i requires 0 <= i < |bs| => mem[bs[i]])
  }

  /** Memory after a kernel has run on it with the given arguments. */
  function Run(k: Kernel, mem: Memory, args: seq<KernelArg>): (after: Memory)
    requires KeepsSizes(k) && ValidMemory(mem)
    ensures after.Keys == mem.Keys && forall b :: b in mem ==> |after[b]| == |mem[b]|
  {
    var bs := Buffers(mem, args);
    var out := k(Places(mem, args), Contents(mem, bs));
    map b | b in mem :: if b in bs then out[IndexOf(bs, b)] else mem[b]
  }

  lemma RunKeepsValid(k: Kernel, mem: Memory, args: seq<KernelArg>)
    requires KeepsSizes(k) && ValidMemory(mem)
    ensures ValidMemory(Run(k, mem, args))
  {
  }

  /** An address inside a block is never taken for a dangling one. */
  lemma {:induction false} TargetInBuffers(mem: Memory, args: seq<KernelArg>, i: nat)
    requires ValidMemory(mem) && i < |args| && Target(mem, args[i]).Some?
    ensures Target(mem, args[i]).value in Buffers(mem, args)
  {
    var n := |args| - 1;
    if i < n { TargetInBuffers(mem, args[..n], i); }
  }

  // ------------------------------------------------------------------
  // Relocation
  // ------------------------------------------------------------------

  /** `p` belongs to the storage at `key`; an empty storage owns its own address. */
  predicate Owns(host: Memory, key: int, p: int) {
    Covers(host, key, p) || (key in host && host[key] == [] && p == key)
  }

  /** Where copies of host storages are: storage -> remote address. */
  type Copies = map<int, int>

  /** `remote` holds what it held before, and one copy of every storage in `copies`. */
  ghost predicate Uploaded(host: Memory, before: Memory, remote: Memory, copies: Copies) {
    && ValidMemory(host) && ValidMemory(remote)
    && (forall k :: k in copies ==>
          k in host && copies[k] in remote && copies[k] !in before && remote[copies[k]] == host[k])
    && (forall k, l :: k in copies && l in copies && k != l ==> copies[k] != copies[l])
    && (forall b :: b in before ==> b in remote && remote[b] == before[b])
    && (forall b :: b in remote ==> b in before || exists k :: k in copies && copies[k] == b)
  }

  /** `q` is the copy of `p`: the null address, or the same offset in the copy of its storage. */
  ghost predicate CopyOf(host: Memory, copies: Copies, p: int, q: int) {
    (p == 0 && q == 0) || exists k :: k in copies && Owns(host, k, p) && q == copies[k] + (p - k)
  }

  ghost predicate Relocated(host: Memory, copies: Copies, a: KernelArg, b: KernelArg) {
    match a
    case Ptr(p) => b.Ptr? && CopyOf(host, copies, p, b.address)
    case Idle(_) => b.Idle?
    case _ => a == b
  }

  ghost predicate AllRelocated(host: Memory, copies: Copies, a: seq<KernelArg>, b: seq<KernelArg>) {
    |a| == |b| && forall i :: 0 <= i < |a| ==> Relocated(host, copies, a[i], b[i])
  }

  /** The copy of an address lies in the copy of its block, or in no block when the address does not. */
  lemma CopyLocated(host: Memory, before: Memory, remote: Memory, copies: Copies, p: int, q: int)
    requires Uploaded(host, before, remote, copies) && CopyOf(host, copies, p, q)
    ensures match Locate(host, p)
            case None => Locate(remote, q) == None
            case Some(k) => k in copies && Locate(remote, q) == Some(copies[k]) && q - copies[k] == p - k
  {
    if exists k :: k in copies && Owns(host, k, p) && q == copies[k] + (p - k) {
      var k :| k in copies && Owns(host, k, p) && q == copies[k] + (p - k);
      if host[k] == [] {
        assert q == copies[k] && remote[copies[k]] == [];
        assert forall b :: !Covers(host, b, p);
        assert forall b :: !Covers(remote, b, q);
      } else {
        LocateIs(host, k, p);
        assert Covers(remote, copies[k], q);
        LocateIs(remote, copies[k], q);
      }
    } else {
      assert forall b :: !Covers(host, b, 0) && !Covers(remote, b, 0);
    }
  }

  ghost function Moved(copies: Copies, bs: seq<int>): (r: seq<int>)
    requires forall i :: 0 <= i < |bs| ==> bs[i] in copies
    ensures |r| == |bs| && forall i :: 0 <= i < |bs| ==> r[i] == copies[bs[i]]
  {
    seq(|bs|, i requires 0 <= i < |bs| => copies[bs[i]])
  }

  lemma IndexMoved(copies: Copies, bs: seq<int>, k: int)
    requires forall i, j :: 0 <= i < j < |bs| ==> bs[i] != bs[j]
    requires forall i :: 0 <= i < |bs| ==> bs[i] in copies
    requires forall j, l :: j in copies && l in copies && j != l ==> copies[j] != copies[l]
    requires k in copies
    ensures k in bs <==> copies[k] in Moved(copies, bs)
    ensures k in bs ==> IndexOf(Moved(copies, bs), copies[k]) == IndexOf(bs, k)
  {
    forall j | 0 <= j < |bs| ensures bs[j] == k <==> Moved(copies, bs)[j] == copies[k] {
    }
  }

  lemma TargetMoved(host: Memory, before: Memory, remote: Memory, copies: Copies, a: KernelArg, b: KernelArg)
    requires Uploaded(host, before, remote, copies) && Relocated(host, copies, a, b)
    ensures var t := Target(host, a);
            Target(remote, b) == if t.Some? && t.value in copies then Some(copies[t.value]) else None
    ensures Target(host, a).Some? ==> Target(host, a).value in copies
  {
    if a.Ptr? { CopyLocated(host, before, remote, copies, a.address, b.address); }
  }

  /** The relocated arguments point into the copies of the same storages, in the same order. */
  lemma {:induction false} BuffersMoved(host: Memory, before: Memory, remote: Memory, copies: Copies,
                                        a: seq<KernelArg>, b: seq<KernelArg>)
    requires Uploaded(host, before, remote, copies) && AllRelocated(host, copies, a, b)
    ensures forall i :: 0 <= i < |Buffers(host, a)| ==> Buffers(host, a)[i] in copies
    ensures Buffers(remote, b) == Moved(copies, Buffers(host, a))
  {
    if a != [] {
      var n := |a| - 1;
      BuffersMoved(host, before, remote, copies, a[..n], b[..n]);
      TargetMoved(host, before, remote, copies, a[n], b[n]);
      AddMoved(copies, Buffers(host, a[..n]), Target(host, a[n]));
    }
  }

  lemma AddMoved(copies: Copies, bs: seq<int>, t: Option<int>)
    requires forall i, j :: 0 <= i < j < |bs| ==> bs[i] != bs[j]
    requires forall i :: 0 <= i < |bs| ==> bs[i] in copies
    requires forall j, l :: j in copies && l in copies && j != l ==> copies[j] != copies[l]
    requires t.Some? ==> t.value in copies
    ensures forall i :: 0 <= i < |AddBuffer(bs, t)| ==> AddBuffer(bs, t)[i] in copies
    ensures AddBuffer(Moved(copies, bs), if t.Some? then Some(copies[t.value]) else None)
         == Moved(copies, AddBuffer(bs, t))
  {
    if t.Some? { IndexMoved(copies, bs, t.value); }
  }

  lemma PlaceMoved(host: Memory, before: Memory, remote: Memory, copies: Copies, a: KernelArg, b: KernelArg,
                   bs: seq<int>, rs: seq<int>)
    requires Uploaded(host, before, remote, copies) && Relocated(host, copies, a, b)
    requires forall i, j :: 0 <= i < j < |bs| ==> bs[i] != bs[j]
    requires forall i :: 0 <= i < |bs| ==> bs[i] in copies
    requires rs == Moved(copies, bs)
    ensures PlaceOf(remote, rs, b) == PlaceOf(host, bs, a)
  {
    if a.Ptr? {
      CopyLocated(host, before, remote, copies, a.address, b.address);
      var k := Locate(host, a.address);
      if k.Some? { IndexMoved(copies, bs, k.value); }
    }
  }

  /** A kernel cannot tell the copies from the original. */
  lemma PlacesMoved(host: Memory, before: Memory, remote: Memory, copies: Copies, a: seq<KernelArg>, b: seq<KernelArg>)
    requires Uploaded(host, before, remote, copies) && AllRelocated(host, copies, a, b)
    ensures Places(remote, b) == Places(host, a)
    ensures Contents(remote, Buffers(remote, b)) == Contents(host, Buffers(host, a))
  {
    BuffersMoved(host, before, remote, copies, a, b);
    forall i | 0 <= i < |a|
      ensures PlaceOf(remote, Buffers(remote, b), b[i]) == PlaceOf(host, Buffers(host, a), a[i])
    {
      PlaceMoved(host, before, remote, copies, a[i], b[i], Buffers(host, a), Buffers(remote, b));
    }
  }

  /** After the kernel every copy holds what it would have left in the storage itself. */
  lemma RunMoved(k: Kernel, host: Memory, before: Memory, remote: Memory, copies: Copies, a: seq<KernelArg>,
                 b: seq<KernelArg>)
    requires KeepsSizes(k) && Uploaded(host, before, remote, copies) && AllRelocated(host, copies, a, b)
    ensures Uploaded(Run(k, host, a), before, Run(k, remote, b), copies)
    ensures forall s :: s in host && s !in copies ==> Run(k, host, a)[s] == host[s]
  {
    BuffersMoved(host, before, remote, copies, a, b);
    PlacesMoved(host, before, remote, copies, a, b);
    RunKeepsValid(k, host, a);
    RunKeepsValid(k, remote, b);
    forall s | s in copies ensures Run(k, remote, b)[copies[s]] == Run(k, host, a)[s] {
      IndexMoved(copies, Buffers(host, a), s);
    }
  }

  // ------------------------------------------------------------------
  // The remote device
  // ------------------------------------------------------------------

  datatype Call =
    | Alloc(address: int, size: nat)
    | Write(address: int)
    | Execute
    | Read(address: int)
    | Free(address: int)

  class RemoteDevice {
    var memory: Memory
    var top: int
    ghost var calls: seq<Call>

    constructor ()
      ensures Valid() && memory == map[] && calls == []
    {
      memory, top, calls := map[], 1, [];
    }

    ghost predicate Valid()
      reads this
    {
      ValidMemory(memory) && top > 0 && forall b :: b in memory ==> b + |memory[b]| < top
    }

    /** A block that overlaps no other. Callers learn nothing about where it is. */
    method AllocMemory(size: nat) returns (address: int)
      requires Valid()
      modifies this
      ensures Valid() && address > 0 && address !in old(memory) && address in memory && |memory[address]| == size
      ensures memory == old(memory)[address := memory[address]] && calls == old(calls) + [Alloc(address, size)]
    {
      address := top;
      memory := memory[address := seq(size, i => 0)];
      top := address + size + 1;
      calls := calls + [Alloc(address, size)];
    }

    method WriteMemory(address: int, data: seq<Byte>)
      requires Valid() && address in memory && |memory[address]| == |data|
      modifies this
      ensures Valid() && memory == old(memory)[address := data] && calls == old(calls) + [Write(address)]
    {
      memory := memory[address := data];
      calls := calls + [Write(address)];
    }

    method ExecuteKernel(k: Kernel, args: seq<KernelArg>)
      requires Valid() && KeepsSizes(k)
      modifies this
      ensures Valid() && memory == Run(k, old(memory), args) && calls == old(calls) + [Execute]
    {
      RunKeepsValid(k, memory, args);
      memory := Run(k, memory, args);
      calls := calls + [Execute];
    }

    method ReadMemory(address: int) returns (data: seq<Byte>)
      requires address in memory
      modifies `calls
      ensures data == memory[address] && calls == old(calls) + [Read(address)]
    {
      data := memory[address];
      calls := calls + [Read(address)];
    }

    method FreeMemory(address: int)
      requires Valid() && address in memory
      modifies this
      ensures Valid() && memory == old(memory) - {address} && calls == old(calls) + [Free(address)]
    {
      memory := memory - {address};
      calls := calls + [Free(address)];
    }
  }

  // ------------------------------------------------------------------
  // The launcher
  // ------------------------------------------------------------------

  /**
   A positional argument of a launch. `asInt` is what int() makes of it, if it accepts it. A tensor without elements
   may have any data_ptr.
   */
  datatype Arg =
    | Tensor(storage: int, dataPtr: int, empty: bool)
    | Integer(v: int)
    | Floating(bits: int, asInt: Option<int>)
    | Object(asInt: Option<int>)

  function AsInt(arg: Arg): Option<int> {
    match arg
    case Tensor(_, p, _) => Some(p)
    case Integer(v) => Some(v)
    case Floating(_, i) => i
    case Object(i) => i
  }

  /** The argument list and what the signature says about each position. */
  datatype Launch = Launch(args: seq<Arg>, skipped: set<nat>, pointers: set<nat>)
  {
    /** Position i carries a tensor to the kernel. */
    predicate IsTensor(i: nat)
      requires i < |args|
    {
      i !in skipped && args[i].Tensor?
    }

    /** Position i carries a bare address to the kernel. */
    predicate IsRawPointer(i: nat)
      requires i < |args|
    {
      i !in skipped && !args[i].Tensor? && i in pointers
    }
  }

  /** A tensor, passed as this address. */
  function TensorArg(arg: Arg, address: int): KernelArg
    requires arg.Tensor?
  {
    if arg.empty then Idle(address) else Ptr(address)
  }

  /** What the kernel gets for one argument when it runs on host memory. */
  function LocalArg(arg: Arg, pointer: bool): KernelArg {
    if arg.Tensor? then TensorArg(arg, arg.dataPtr)
    else if pointer then Ptr(if AsInt(arg).Some? then AsInt(arg).value else 0)
    else match arg
      case Floating(bits, _) => F32(bits)
      case _ => I32(if AsInt(arg).Some? then AsInt(arg).value else 0)
  }

  function LocalArgs(l: Launch, n: nat): seq<KernelArg>
    requires n <= |l.args|
  {
    if n == 0 then []
    else LocalArgs(l, n - 1) + if n - 1 in l.skipped then [] else [LocalArg(l.args[n - 1], n - 1 in l.pointers)]
  }

  /** Every tensor views an existing storage, and its elements lie inside. */
  ghost predicate TensorsOk(l: Launch, host: Memory) {
    forall i :: 0 <= i < |l.args| && l.IsTensor(i) ==>
      l.args[i].storage in host && (!l.args[i].empty ==> Owns(host, l.args[i].storage, l.args[i].dataPtr))
  }

  /** The last tensor with this data_ptr among the first n arguments. */
  function LastTensor(l: Launch, n: nat, p: int): (r: Option<nat>)
    requires n <= |l.args|
    ensures r.Some? ==> r.value < n && l.IsTensor(r.value) && l.args[r.value].dataPtr == p
    ensures r.Some? ==> forall j :: r.value < j < n && l.IsTensor(j) ==> l.args[j].dataPtr != p
    ensures r.None? ==> forall j :: 0 <= j < n && l.IsTensor(j) ==> l.args[j].dataPtr != p
  {
    if n == 0 then None
    else if l.IsTensor(n - 1) && l.args[n - 1].dataPtr == p then Some(n - 1)
    else LastTensor(l, n - 1, p)
  }

  /** A bare address is the data_ptr of a tensor that comes before it and lies in its storage, or null. */
  ghost predicate RawPointersOk(l: Launch, host: Memory) {
    forall i :: 0 <= i < |l.args| && l.IsRawPointer(i) ==> RawPointerOk(l, i, host)
  }

  ghost predicate RawPointerOk(l: Launch, i: nat, host: Memory)
    requires i < |l.args|
  {
    match AsInt(l.args[i])
    case None => true
    case Some(p) =>
      match LastTensor(l, i, p)
      case Some(j) => Owns(host, l.args[j].storage, p)
      case None => p == 0
  }

  /** One entry of remote_addrs. */
  datatype Transfer = Transfer(address: int, storage: int, size: nat)

  function Uploads(ts: seq<Transfer>): seq<Call> {
    if ts == [] then []
    else Uploads(ts[..|ts| - 1]) + [Alloc(ts[|ts| - 1].address, ts[|ts| - 1].size), Write(ts[|ts| - 1].address)]
  }

  function Readbacks(ts: seq<Transfer>): seq<Call> {
    if ts == [] then []
    else Readbacks(ts[..|ts| - 1]) + [Read(ts[|ts| - 1].address), Free(ts[|ts| - 1].address)]
  }

  lemma CallsAppend(calls: seq<Call>, ts: seq<Transfer>, t: Transfer)
    ensures calls + Uploads(ts) + [Alloc(t.address, t.size), Write(t.address)] == calls + Uploads(ts + [t])
  {
    assert (ts + [t])[..|ts|] == ts;
    assert calls + Uploads(ts) + [Alloc(t.address, t.size), Write(t.address)]
        == calls + (Uploads(ts) + [Alloc(t.address, t.size), Write(t.address)]);
  }

  /** The transfers list every copy once. */
  ghost predicate Lists(ts: seq<Transfer>, copies: Copies, host: Memory) {
    && (forall j :: 0 <= j < |ts| ==> ts[j].storage in copies && ts[j].storage in host)
    && (forall j :: 0 <= j < |ts| ==> ts[j].address == copies[ts[j].storage] && ts[j].size == |host[ts[j].storage]|)
    && (forall i, j :: 0 <= i < j < |ts| ==> ts[i].storage != ts[j].storage)
    && (forall k :: k in copies ==> exists j :: 0 <= j < |ts| && ts[j].storage == k)
  }

  /** No block is used twice, and none was there before. */
  lemma DistinctBlocks(host: Memory, before: Memory, remote: Memory, copies: Copies, ts: seq<Transfer>)
    requires Uploaded(host, before, remote, copies) && Lists(ts, copies, host)
    ensures forall i, j :: 0 <= i < j < |ts| ==> ts[i].address != ts[j].address
    ensures forall j :: 0 <= j < |ts| ==> ts[j].address !in before
  {
  }

  /** The storages that the tensors among the first n arguments view. */
  ghost function TensorStorages(l: Launch, n: nat): set<int>
    requires n <= |l.args|
  {
    set i | 0 <= i < n && l.IsTensor(i) :: l.args[i].storage
  }

  lemma AddTransfer(ts: seq<Transfer>, copies: Copies, host: Memory, skey: int, addr: int)
    requires Lists(ts, copies, host) && skey in host && skey !in copies
    ensures Lists(ts + [Transfer(addr, skey, |host[skey]|)], copies[skey := addr], host)
  {
    var ts' := ts + [Transfer(addr, skey, |host[skey]|)];
    var copies' := copies[skey := addr];
    forall k | k in copies' ensures exists j :: 0 <= j < |ts'| && ts'[j].storage == k {
      if k == skey {
        assert ts'[|ts|].storage == k;
      } else {
        var j :| 0 <= j < |ts| && ts[j].storage == k;
        assert ts'[j].storage == k;
      }
    }
  }

  lemma AddCopy(host: Memory, before: Memory, remote: Memory, remote': Memory, copies: Copies, skey: int, addr: int)
    requires Uploaded(host, before, remote, copies) && skey in host && skey !in copies
    requires addr !in remote && remote' == remote[addr := host[skey]] && ValidMemory(remote')
    ensures Uploaded(host, before, remote', copies[skey := addr])
  {
    var copies' := copies[skey := addr];
    forall b | b in remote' ensures b in before || exists k :: k in copies' && copies'[k] == b {
      if b == addr {
        assert copies'[skey] == b;
      } else if b !in before {
        var k :| k in copies && copies[k] == b;
        assert copies'[k] == b;
      }
    }
  }

  lemma UploadStep(host: Memory, before: Memory, remote: Memory, remote': Memory, copies: Copies, ts: seq<Transfer>,
                   skey: int, addr: int)
    requires Uploaded(host, before, remote, copies) && Lists(ts, copies, host) && skey in host && skey !in copies
    requires addr !in remote && remote' == remote[addr := host[skey]] && ValidMemory(remote')
    ensures Uploaded(host, before, remote', copies[skey := addr])
    ensures Lists(ts + [Transfer(addr, skey, |host[skey]|)], copies[skey := addr], host)
  {
    AddCopy(host, before, remote, remote', copies, skey, addr);
    AddTransfer(ts, copies, host, skey, addr);
  }

  // ------------------------------------------------------------------
  // What the launcher passes
  // ------------------------------------------------------------------

  /** The storages of the tensors among the first n arguments have copies. */
  ghost predicate Knows(l: Launch, n: nat, copies: Copies)
    requires n <= |l.args|
  {
    forall j :: 0 <= j < n && l.IsTensor(j) ==> l.args[j].storage in copies
  }

  /** Where a tensor starts inside the copy of its storage. */
  function RemoteAddress(t: Arg, copies: Copies): int
    requires t.Tensor? && t.storage in copies
  {
    copies[t.storage] + (t.dataPtr - t.storage)
  }

  /** Where a bare address goes behind n arguments: with the last tensor of that address, else it stays. */
  ghost function RawAddress(l: Launch, n: nat, arg: Arg, copies: Copies): int
    requires n <= |l.args| && Knows(l, n, copies)
  {
    match AsInt(arg)
    case None => 0
    case Some(p) =>
      match LastTensor(l, n, p)
      case Some(j) => RemoteAddress(l.args[j], copies)
      case None => p
  }

  ghost function PassedArg(l: Launch, i: nat, copies: Copies): KernelArg
    requires i < |l.args| && i !in l.skipped && Knows(l, i + 1, copies)
  {
    if l.args[i].Tensor? then TensorArg(l.args[i], RemoteAddress(l.args[i], copies))
    else if i in l.pointers then Ptr(RawAddress(l, i, l.args[i], copies))
    else LocalArg(l.args[i], false)
  }

  ghost function PassedArgs(l: Launch, n: nat, copies: Copies): seq<KernelArg>
    requires n <= |l.args| && Knows(l, n, copies)
  {
    if n == 0 then []
    else PassedArgs(l, n - 1, copies) + if n - 1 in l.skipped then [] else [PassedArg(l, n - 1, copies)]
  }

  /** Copying more storages does not move the tensors seen so far. */
  lemma {:induction false} PassedStays(l: Launch, n: nat, copies: Copies, copies': Copies)
    requires n <= |l.args| && Knows(l, n, copies) && forall k :: k in copies ==> k in copies' && copies'[k] == copies[k]
    ensures Knows(l, n, copies') && PassedArgs(l, n, copies') == PassedArgs(l, n, copies)
  {
    if n > 0 { PassedStays(l, n - 1, copies, copies'); }
  }

  /** What is passed is the relocated argument list. */
  lemma {:induction false} PassedRelocated(l: Launch, n: nat, host: Memory, copies: Copies)
    requires n <= |l.args| && Knows(l, n, copies) && TensorsOk(l, host) && RawPointersOk(l, host)
    ensures AllRelocated(host, copies, LocalArgs(l, n), PassedArgs(l, n, copies))
  {
    if n > 0 {
      PassedRelocated(l, n - 1, host, copies);
      if n - 1 !in l.skipped { ArgRelocated(l, n - 1, host, copies); }
    }
  }

  lemma ArgRelocated(l: Launch, i: nat, host: Memory, copies: Copies)
    requires i < |l.args| && i !in l.skipped && Knows(l, i + 1, copies) && TensorsOk(l, host) && RawPointersOk(l, host)
    ensures Relocated(host, copies, LocalArg(l.args[i], i in l.pointers), PassedArg(l, i, copies))
  {
    if l.IsTensor(i) {
      assert l.args[i].storage in copies;
    } else if i in l.pointers {
      assert l.IsRawPointer(i) && RawPointerOk(l, i, host);
    }
  }

  /**
   A bare address into the storage at `k` goes to its copy exactly when the last tensor in front of it with that
   data_ptr views this storage. With a tensor of another storage, or none, it is right only if the addresses
   happen to fit.
   */
  lemma RawAddressExact(l: Launch, n: nat, host: Memory, copies: Copies, arg: Arg, k: int)
    requires n <= |l.args| && Knows(l, n, copies) && ValidMemory(host)
    requires AsInt(arg).Some? && Covers(host, k, AsInt(arg).value)
    ensures CopyOf(host, copies, AsInt(arg).value, RawAddress(l, n, arg, copies)) <==>
              match LastTensor(l, n, AsInt(arg).value)
              case Some(j) =>
                var other := l.args[j].storage;
                other == k || (k in copies && copies[other] - other == copies[k] - k)
              case None => k in copies && copies[k] == k
  {
    var p, q := AsInt(arg).value, RawAddress(l, n, arg, copies);
    if CopyOf(host, copies, p, q) {
      var m :| m in copies && Owns(host, m, p) && q == copies[m] + (p - m);
      assert m == k;
    }
  }

  // ------------------------------------------------------------------
  // What arrives at the kernel, argument by argument
  // ------------------------------------------------------------------

  /** How many of the first n positions reach the kernel. */
  function Kept(l: Launch, n: nat): nat {
    if n == 0 then 0 else Kept(l, n - 1) + if n - 1 in l.skipped then 0 else 1
  }

  /** A number, or nothing that int() accepts, as the bits that arrive. */
  predicate ArrivesAs(arg: Arg, a: KernelArg) {
    match arg
    case Integer(v) => a == I32(v)
    case Floating(bits, _) => a == F32(bits)
    case Object(Some(v)) => a == I32(v)
    case Object(None) => a == I32(0)
    case Tensor(_, _, _) => false
  }

  /** A bare address, given as a number: it stays, or goes where the last tensor of that address has gone. */
  ghost predicate PointerArrives(l: Launch, i: nat, copies: Copies, a: KernelArg)
    requires i < |l.args| && Knows(l, i, copies)
  {
    match AsInt(l.args[i])
    case None => a == Ptr(0)
    case Some(p) =>
      match LastTensor(l, i, p)
      case Some(j) => a == Ptr(copies[l.args[j].storage] + p - l.args[j].storage)
      case None => a == Ptr(p)
  }

  /** One argument of a launch as it is passed: tensors at their offset in the copy, numbers unchanged. */
  ghost predicate Arrives(l: Launch, i: nat, copies: Copies, a: KernelArg)
    requires i < |l.args| && i !in l.skipped && Knows(l, i + 1, copies)
  {
    match l.args[i]
    case Tensor(key, p, empty) =>
      var q := copies[key] + p - key;
      a == if empty then Idle(q) else Ptr(q)
    case _ => if i in l.pointers then PointerArrives(l, i, copies, a) else ArrivesAs(l.args[i], a)
  }

  /** Every position that is not skipped arrives, in order, and nothing else does. */
  ghost predicate AllArrive(l: Launch, n: nat, copies: Copies, args: seq<KernelArg>)
    requires n <= |l.args| && Knows(l, n, copies)
  {
    && |args| == Kept(l, n)
    && forall i :: 0 <= i < n && i !in l.skipped ==> Kept(l, i) < |args| && Arrives(l, i, copies, args[Kept(l, i)])
  }

  lemma {:induction false} KeptGrows(l: Launch, i: nat, n: nat)
    requires i < n && i !in l.skipped
    ensures Kept(l, i) < Kept(l, n)
    decreases n
  {
    if i < n - 1 { KeptGrows(l, i, n - 1); }
  }

  lemma ArgArrives(l: Launch, i: nat, copies: Copies)
    requires i < |l.args| && i !in l.skipped && Knows(l, i + 1, copies)
    ensures Arrives(l, i, copies, PassedArg(l, i, copies))
  {
  }

  lemma {:induction false} PassedAt(l: Launch, n: nat, copies: Copies, i: nat)
    requires i < n <= |l.args| && i !in l.skipped && Knows(l, n, copies)
    ensures Kept(l, i) < Kept(l, n) == |PassedArgs(l, n, copies)|
    ensures PassedArgs(l, n, copies)[Kept(l, i)] == PassedArg(l, i, copies)
    decreases n
  {
    KeptGrows(l, i, n);
    PassedCount(l, n - 1, copies);
    if i < n - 1 { PassedAt(l, n - 1, copies, i); }
  }

  lemma {:induction false} PassedCount(l: Launch, n: nat, copies: Copies)
    requires n <= |l.args| && Knows(l, n, copies)
    ensures |PassedArgs(l, n, copies)| == Kept(l, n)
  {
    if n > 0 { PassedCount(l, n - 1, copies); }
  }

  lemma PassedArrives(l: Launch, n: nat, copies: Copies)
    requires n <= |l.args| && Knows(l, n, copies)
    ensures AllArrive(l, n, copies, PassedArgs(l, n, copies))
  {
    PassedCount(l, n, copies);
    forall i | 0 <= i < n && i !in l.skipped
      ensures Kept(l, i) < Kept(l, n) && Arrives(l, i, copies, PassedArgs(l, n, copies)[Kept(l, i)])
    {
      PassedAt(l, n, copies, i);
      ArgArrives(l, i, copies);
    }
  }

  /** The same for a run on host memory: every storage is its own copy there. */
  lemma {:induction false} LocalArrives(l: Launch, n: nat, i: nat)
    requires i < n <= |l.args| && i !in l.skipped
    ensures |LocalArgs(l, n)| == Kept(l, n) && Kept(l, i) < Kept(l, n)
    ensures var a := LocalArgs(l, n)[Kept(l, i)];
            match l.args[i]
            case Tensor(_, p, empty) => a == if empty then Idle(p) else Ptr(p)
            case _ =>
              if i !in l.pointers then ArrivesAs(l.args[i], a)
              else a == Ptr(if AsInt(l.args[i]).Some? then AsInt(l.args[i]).value else 0)
    decreases n
  {
    KeptGrows(l, i, n);
    LocalCount(l, n - 1);
    if i < n - 1 { LocalArrives(l, n - 1, i); }
  }

  lemma {:induction false} LocalCount(l: Launch, n: nat)
    requires n <= |l.args|
    ensures |LocalArgs(l, n)| == Kept(l, n)
  {
    if n > 0 { LocalCount(l, n - 1); }
  }

  /** A kernel sees every number it is given, on the host and on the device. */
  lemma NumbersSeen(l: Launch, i: nat, host: Memory, remote: Memory, copies: Copies)
    requires i < |l.args| && i !in l.skipped && !l.args[i].Tensor? && i !in l.pointers
    requires ValidMemory(host) && ValidMemory(remote) && Knows(l, |l.args|, copies)
    ensures Kept(l, i) < Kept(l, |l.args|) == |LocalArgs(l, |l.args|)| == |PassedArgs(l, |l.args|, copies)|
    ensures var here := Places(host, LocalArgs(l, |l.args|))[Kept(l, i)];
            here.Number? && ArrivesAs(l.args[i], here.arg)
    ensures var there := Places(remote, PassedArgs(l, |l.args|, copies))[Kept(l, i)];
            there.Number? && ArrivesAs(l.args[i], there.arg)
  {
    LocalArrives(l, |l.args|, i);
    PassedArrives(l, |l.args|, copies);
  }

  /** So a kernel can tell two launches apart that differ in one number. */
  lemma NumbersDiffer(l: Launch, i: nat, v: int, v': int, host: Memory)
    requires i < |l.args| && i !in l.skipped && i !in l.pointers && ValidMemory(host) && v != v'
    ensures var a, b := l.(args := l.args[i := Integer(v)]), l.(args := l.args[i := Integer(v')]);
            Places(host, LocalArgs(a, |l.args|)) != Places(host, LocalArgs(b, |l.args|))
  {
    var a, b := l.(args := l.args[i := Integer(v)]), l.(args := l.args[i := Integer(v')]);
    LocalArrives(a, |l.args|, i);
    LocalArrives(b, |l.args|, i);
    SameKept(a, b, i);
    assert Places(host, LocalArgs(a, |l.args|))[Kept(a, i)] == Number(I32(v));
    assert Places(host, LocalArgs(b, |l.args|))[Kept(b, i)] == Number(I32(v'));
  }

  lemma {:induction false} SameKept(a: Launch, b: Launch, n: nat)
    requires a.skipped == b.skipped
    ensures Kept(a, n) == Kept(b, n)
  {
    if n > 0 { SameKept(a, b, n - 1); }
  }

  // ------------------------------------------------------------------
  // Launches that go wrong
  // ------------------------------------------------------------------

  // A pointer to the second byte of the storage at k, in front of the tensor that views this storage.
  function EarlyPointer(k: int): Launch { Launch([Integer(k + 1), Tensor(k, k, false)], {}, {0}) }

  /** Writes a one where its first argument points to. */
  function Poke(ps: seq<Place>, bufs: seq<seq<Byte>>): seq<seq<Byte>> {
    if ps != [] && ps[0].At? && ps[0].buffer < |bufs| && 0 <= ps[0].offset < |bufs[ps[0].buffer]| then
      bufs[ps[0].buffer := bufs[ps[0].buffer][ps[0].offset := 1]]
    else bufs
  }

  lemma PokeKeepsSizes()
    ensures KeepsSizes(Poke)
  {
  }

  /** On a memory of one block of two bytes. */
  lemma PokeRuns(mem: Memory, c: int, p: int)
    requires c > 0 && mem == map[c := [0, 0]]
    ensures ValidMemory(mem) && KeepsSizes(Poke)
    ensures Run(Poke, mem, [Ptr(p), Ptr(c)]) ==
              map[c := if p == c then [1, 0] else if p == c + 1 then [0, 1] else [0, 0]]
  {
    PokeKeepsSizes();
    var args := [Ptr(p), Ptr(c)];
    PokeBuffers(mem, c, p);
    assert Places(mem, args)[0] == if p == c || p == c + 1 then At(0, p - c) else Dangling;
    assert Contents(mem, [c]) == [mem[c]] && [c][0] == c;
    Poked(mem[c], Places(mem, args)[0], Places(mem, args));
    var after := Run(Poke, mem, args);
    assert after.Keys == {c} && after[c] == Poke(Places(mem, args), [mem[c]])[0];
  }

  lemma Poked(bytes: seq<Byte>, first: Place, ps: seq<Place>)
    requires bytes == [0, 0] && ps != [] && ps[0] == first
    ensures first == At(0, 0) ==> Poke(ps, [bytes])[0] == [1, 0]
    ensures first == At(0, 1) ==> Poke(ps, [bytes])[0] == [0, 1]
    ensures first == Dangling ==> Poke(ps, [bytes])[0] == [0, 0]
  {
  }

  lemma PokeBuffers(mem: Memory, c: int, p: int)
    requires c > 0 && mem == map[c := [0, 0]] && ValidMemory(mem)
    ensures Buffers(mem, [Ptr(p), Ptr(c)]) == [c]
    ensures Target(mem, Ptr(p)) == if p == c || p == c + 1 then Some(c) else None
  {
    var args := [Ptr(p), Ptr(c)];
    LocateIs(mem, c, c);
    if p == c || p == c + 1 { LocateIs(mem, c, p); }
    assert args[..1] == [Ptr(p)] && args[..1][..0] == [];
    assert Buffers(mem, args[..1]) == AddBuffer(Buffers(mem, []), Target(mem, Ptr(p)));
  }

  lemma EarlyArgs(k: int, copies: Copies)
    requires k in copies
    ensures Knows(EarlyPointer(k), 2, copies)
    ensures LocalArgs(EarlyPointer(k), 2) == [Ptr(k + 1), Ptr(k)]
    ensures PassedArgs(EarlyPointer(k), 2, copies) == [Ptr(k + 1), Ptr(copies[k])]
  {
    var l := EarlyPointer(k);
    assert LocalArgs(l, 1) == [] + [Ptr(k + 1)];
    assert LastTensor(l, 0, k + 1) == None;
    assert PassedArgs(l, 1, copies) == [] + [Ptr(k + 1)];
  }

  lemma OneBlock(k: int, remote: Memory, copies: Copies)
    requires Uploaded(map[k := [0, 0]], map[], remote, copies) && copies.Keys == {k}
    ensures remote == map[copies[k] := [0, 0]]
  {
    forall b | b in remote ensures b == copies[k] {
      var m :| m in copies && copies[m] == b;
      assert m in copies.Keys;
    }
    assert remote.Keys == {copies[k]};
  }

  /** On such a launch a write through the pointer is lost, unless the copy lies where the storage does. */
  lemma RawAddressBreaks(k: int, remote: Memory, copies: Copies)
    requires k > 0 && Uploaded(map[k := [0, 0]], map[], remote, copies) && copies.Keys == {k}
    ensures TensorsOk(EarlyPointer(k), map[k := [0, 0]]) && Knows(EarlyPointer(k), 2, copies) && KeepsSizes(Poke)
    ensures Run(Poke, map[k := [0, 0]], LocalArgs(EarlyPointer(k), 2)) == map[k := [0, 1]]
    ensures Run(Poke, remote, PassedArgs(EarlyPointer(k), 2, copies))[copies[k]] == [0, 1] <==> copies[k] == k
  {
    EarlyArgs(k, copies);
    PokeRuns(map[k := [0, 0]], k, k + 1);
    PokedCopy(k, remote, copies);
  }

  lemma PokedCopy(k: int, remote: Memory, copies: Copies)
    requires k > 0 && Uploaded(map[k := [0, 0]], map[], remote, copies) && copies.Keys == {k}
    ensures Knows(EarlyPointer(k), 2, copies) && ValidMemory(remote) && KeepsSizes(Poke) && copies[k] in remote
    ensures Run(Poke, remote, PassedArgs(EarlyPointer(k), 2, copies))[copies[k]] == [0, 1] <==> copies[k] == k
  {
    EarlyArgs(k, copies);
    OneBlock(k, remote, copies);
    PokeRuns(remote, copies[k], k + 1);
  }

  // A null pointer behind a tensor without elements whose data_ptr is zero.
  function LateNull(k: int): Launch { Launch([Tensor(k, 0, true), Integer(0)], {}, {1}) }

  /** The null pointer is taken for that tensor, and arrives as another address unless the copy lies at `k`. */
  lemma NullPointerBreaks(k: int, host: Memory, copies: Copies)
    requires k in host && k in copies
    ensures TensorsOk(LateNull(k), host) && Knows(LateNull(k), 2, copies)
    ensures LocalArgs(LateNull(k), 2) == [Idle(0), Ptr(0)]
    ensures PassedArgs(LateNull(k), 2, copies) == [Idle(copies[k] - k), Ptr(copies[k] - k)]
  {
    var l := LateNull(k);
    assert LocalArgs(l, 1) == [] + [Idle(0)];
    assert LastTensor(l, 1, 0) == Some(0);
    assert PassedArgs(l, 1, copies) == [] + [Idle(copies[k] - k)];
  }

  /** What remote_tensor_map knows after n arguments: where every data_ptr seen so far has gone last. */
  ghost predicate MapsTensors(l: Launch, n: nat, copies: Copies, tensorMap: map<int, int>)
    requires n <= |l.args| && Knows(l, n, copies)
  {
    forall p ::
      && (p in tensorMap <==> LastTensor(l, n, p).Some?)
      && (p in tensorMap ==> tensorMap[p] == RemoteAddress(l.args[LastTensor(l, n, p).value], copies))
  }

  /** The state of the launch after n arguments. */
  ghost predicate Prepared(l: Launch, n: nat, copies: Copies, rpcArgs: seq<KernelArg>, tensorMap: map<int, int>)
    requires n <= |l.args|
  {
    && copies.Keys == TensorStorages(l, n) && Knows(l, n, copies)
    && rpcArgs == PassedArgs(l, n, copies) && MapsTensors(l, n, copies, tensorMap)
  }

  lemma SkippedStep(l: Launch, n: nat, copies: Copies, rpcArgs: seq<KernelArg>, tensorMap: map<int, int>)
    requires n < |l.args| && n in l.skipped && Prepared(l, n, copies, rpcArgs, tensorMap)
    ensures Prepared(l, n + 1, copies, rpcArgs, tensorMap)
  {
    assert TensorStorages(l, n + 1) == TensorStorages(l, n);
  }

  lemma ConvertStep(l: Launch, n: nat, copies: Copies, rpcArgs: seq<KernelArg>, tensorMap: map<int, int>)
    requires n < |l.args| && n !in l.skipped && !l.args[n].Tensor? && Prepared(l, n, copies, rpcArgs, tensorMap)
    ensures Knows(l, n + 1, copies) && Prepared(l, n + 1, copies, rpcArgs + [PassedArg(l, n, copies)], tensorMap)
  {
    assert TensorStorages(l, n + 1) == TensorStorages(l, n);
  }

  lemma TensorStep(l: Launch, n: nat, copies0: Copies, copies: Copies, rpcArgs: seq<KernelArg>,
                   tensorMap: map<int, int>, q: int)
    requires n < |l.args| && l.IsTensor(n) && Prepared(l, n, copies0, rpcArgs, tensorMap)
    requires copies.Keys == copies0.Keys + {l.args[n].storage} && forall k :: k in copies0 ==> copies[k] == copies0[k]
    requires q == RemoteAddress(l.args[n], copies)
    ensures Prepared(l, n + 1, copies, rpcArgs + [TensorArg(l.args[n], q)], tensorMap[l.args[n].dataPtr := q])
  {
    assert TensorStorages(l, n + 1) == TensorStorages(l, n) + {l.args[n].storage} by {
      assert l.args[n].storage in TensorStorages(l, n + 1);
    }
    PassedStays(l, n, copies0, copies);
  }

  /** Host memory after the first transfers have been read back. */
  function Restored(host: Memory, remote: Memory, ts: seq<Transfer>): Memory
    requires forall j :: 0 <= j < |ts| ==> ts[j].address in remote
  {
    if ts == [] then host
    else
      var t := ts[|ts| - 1];
      Restored(host, remote, ts[..|ts| - 1])[t.storage := remote[t.address]]
  }

  function Freed(remote: Memory, ts: seq<Transfer>): Memory {
    if ts == [] then remote else Freed(remote, ts[..|ts| - 1]) - {ts[|ts| - 1].address}
  }

  lemma OneMore(host: Memory, remote: Memory, ts: seq<Transfer>, t: Transfer)
    requires t.address in remote && forall j :: 0 <= j < |ts| ==> ts[j].address in remote
    ensures Freed(remote, ts + [t]) == Freed(remote, ts) - {t.address}
    ensures Restored(host, remote, ts + [t]) == Restored(host, remote, ts)[t.storage := remote[t.address]]
    ensures Readbacks(ts + [t]) == Readbacks(ts) + [Read(t.address), Free(t.address)]
  {
    assert (ts + [t])[..|ts|] == ts;
  }

  lemma {:induction false} FreedAt(remote: Memory, ts: seq<Transfer>, b: int)
    ensures b in Freed(remote, ts) <==> b in remote && forall j :: 0 <= j < |ts| ==> ts[j].address != b
    ensures b in Freed(remote, ts) ==> Freed(remote, ts)[b] == remote[b]
  {
    if ts != [] { FreedAt(remote, ts[..|ts| - 1], b); }
  }

  /** A copy is not freed before its turn. */
  lemma StillThere(remote: Memory, host: Memory, ts: seq<Transfer>, copies: Copies, j: nat)
    requires Lists(ts, copies, host) && j < |ts| && forall k :: k in copies ==> copies[k] in remote
    requires forall k, m :: k in copies && m in copies && k != m ==> copies[k] != copies[m]
    ensures ts[j].address in Freed(remote, ts[..j])
    ensures Freed(remote, ts[..j])[ts[j].address] == remote[ts[j].address]
  {
    FreedAt(remote, ts[..j], ts[j].address);
  }

  lemma {:induction false} RestoredAt(host: Memory, remote: Memory, ts: seq<Transfer>, k: int)
    requires forall j :: 0 <= j < |ts| ==> ts[j].address in remote && ts[j].storage in host
    requires forall i, j :: 0 <= i < j < |ts| ==> ts[i].storage != ts[j].storage
    ensures Restored(host, remote, ts).Keys == host.Keys
    ensures k in host && (forall j :: 0 <= j < |ts| ==> ts[j].storage != k) ==> Restored(host, remote, ts)[k] == host[k]
    ensures forall j :: 0 <= j < |ts| && ts[j].storage == k ==> Restored(host, remote, ts)[k] == remote[ts[j].address]
  {
    if ts != [] { RestoredAt(host, remote, ts[..|ts| - 1], k); }
  }

  /** When everything is back, host memory holds what the copies hold and the device what it held before. */
  lemma AllRestored(host: Memory, before: Memory, remote: Memory, copies: Copies, ts: seq<Transfer>, result: Memory)
    requires Lists(ts, copies, host) && Uploaded(result, before, remote, copies) && result.Keys == host.Keys
    requires forall s :: s in host && s !in copies ==> result[s] == host[s]
    ensures Restored(host, remote, ts) == result
    ensures Freed(remote, ts) == before
  {
    forall k | k in host ensures k in Restored(host, remote, ts) && Restored(host, remote, ts)[k] == result[k] {
      RestoredAt(host, remote, ts, k);
    }
    RestoredAt(host, remote, ts, 0);
    forall b ensures b in Freed(remote, ts) <==> b in before {
      FreedAt(remote, ts, b);
      if b in remote && b !in before {
        var k :| k in copies && copies[k] == b;
        var j :| 0 <= j < |ts| && ts[j].storage == k;
        assert ts[j].address == b;
      }
    }
    forall b | b in before ensures Freed(remote, ts)[b] == before[b] {
      FreedAt(remote, ts, b);
    }
  }

  class Host {
    var storages: Memory
  }

  class RpcLauncher {
    const client: RemoteDevice

    constructor (client: RemoteDevice)
      ensures this.client == client
    {
      this.client := client;
    }

    /** Copy a storage to the device. */
    method Upload(host: Memory, skey: int, copies: Copies, remoteAddrs: seq<Transfer>,
                  ghost before: Memory, ghost calls: seq<Call>)
      returns (copies': Copies, remoteAddrs': seq<Transfer>)
      requires client.calls == calls + Uploads(remoteAddrs)
      requires client.Valid() && Uploaded(host, before, client.memory, copies) && Lists(remoteAddrs, copies, host)
      requires skey in host && skey !in copies
      modifies client
      ensures client.Valid() && Uploaded(host, before, client.memory, copies') && Lists(remoteAddrs', copies', host)
      ensures skey in copies' && copies' == copies[skey := copies'[skey]]
      ensures client.calls == calls + Uploads(remoteAddrs')
    {
      var addr := Send(host[skey]);
      copies' := copies[skey := addr];
      remoteAddrs' := remoteAddrs + [Transfer(addr, skey, |host[skey]|)];
      CallsAppend(calls, remoteAddrs, Transfer(addr, skey, |host[skey]|));
      UploadStep(host, before, old(client.memory), client.memory, copies, remoteAddrs, skey, addr);
    }

    /** A new remote block with the given bytes. */
    method Send(storageBytes: seq<Byte>) returns (addr: int)
      requires client.Valid()
      modifies client
      ensures client.Valid() && addr !in old(client.memory) && client.memory == old(client.memory)[addr := storageBytes]
      ensures client.calls == old(client.calls) + [Alloc(addr, |storageBytes|), Write(addr)]
    {
      addr := client.AllocMemory(|storageBytes|);
      client.WriteMemory(addr, storageBytes);
    }

    /** Launch the kernel with the given arguments on the device. */
    method Call(host: Host, l: Launch, kernel: Kernel) returns (ghost transfers: seq<Transfer>)
      requires client.Valid() && ValidMemory(host.storages) && KeepsSizes(kernel)
      requires TensorsOk(l, host.storages) && RawPointersOk(l, host.storages)
      modifies host, client
      ensures host.storages == Run(kernel, old(host.storages), LocalArgs(l, |l.args|))
      ensures client.Valid() && client.memory == old(client.memory)
      ensures client.calls == old(client.calls) + Uploads(transfers) + [Execute] + Readbacks(transfers)
      ensures forall i, j :: 0 <= i < j < |transfers| ==>
                transfers[i].storage != transfers[j].storage && transfers[i].address != transfers[j].address
      ensures forall j :: 0 <= j < |transfers| ==> transfers[j].address !in old(client.memory)
      ensures forall k ::
                k in TensorStorages(l, |l.args|) <==> exists j :: 0 <= j < |transfers| && transfers[j].storage == k
    {
      ghost var before, storages, args := client.memory, host.storages, LocalArgs(l, |l.args|);
      ghost var copies;
      var remoteAddrs, rpcArgs;
      copies, remoteAddrs, rpcArgs := Prepare(host.storages, l);
      transfers := remoteAddrs;
      PassedRelocated(l, |l.args|, host.storages, copies);
      DistinctBlocks(host.storages, before, client.memory, copies, transfers);
      RunMoved(kernel, storages, before, client.memory, copies, args, rpcArgs);
      client.ExecuteKernel(kernel, rpcArgs);
      AllRestored(storages, before, client.memory, copies, remoteAddrs, Run(kernel, storages, args));
      ReadBack(host, remoteAddrs, copies);
    }

    /** Turn the arguments into kernel arguments, uploading each storage when it is first seen. */
    method Prepare(host: Memory, l: Launch)
      returns (copies: Copies, remoteAddrs: seq<Transfer>, rpcArgs: seq<KernelArg>)
      requires client.Valid() && ValidMemory(host) && TensorsOk(l, host)
      modifies client
      ensures client.Valid() && Uploaded(host, old(client.memory), client.memory, copies)
      ensures Lists(remoteAddrs, copies, host)
      ensures copies.Keys == TensorStorages(l, |l.args|)
      ensures Knows(l, |l.args|, copies) && rpcArgs == PassedArgs(l, |l.args|, copies)
      ensures AllArrive(l, |l.args|, copies, rpcArgs)
      ensures client.calls == old(client.calls) + Uploads(remoteAddrs)
    {
      copies, remoteAddrs, rpcArgs := map[], [], [];
      var tensorMap := map[];
      for i := 0 to |l.args|
        invariant client.Valid() && Uploaded(host, old(client.memory), client.memory, copies)
        invariant Lists(remoteAddrs, copies, host)
        invariant Prepared(l, i, copies, rpcArgs, tensorMap)
        invariant client.calls == old(client.calls) + Uploads(remoteAddrs)
      {
        copies, remoteAddrs, rpcArgs, tensorMap :=
          PrepareArg(host, l, i, copies, remoteAddrs, rpcArgs, tensorMap, old(client.memory), old(client.calls));
      }
      PassedArrives(l, |l.args|, copies);
    }

    method PrepareArg(host: Memory, l: Launch, i: nat, copies: Copies, remoteAddrs: seq<Transfer>,
                      rpcArgs: seq<KernelArg>, tensorMap: map<int, int>, ghost before: Memory, ghost calls: seq<Call>)
      returns (copies': Copies, remoteAddrs': seq<Transfer>, rpcArgs': seq<KernelArg>, tensorMap': map<int, int>)
      requires client.calls == calls + Uploads(remoteAddrs)
      requires client.Valid() && Uploaded(host, before, client.memory, copies) && Lists(remoteAddrs, copies, host)
      requires i < |l.args| && TensorsOk(l, host) && Prepared(l, i, copies, rpcArgs, tensorMap)
      modifies client
      ensures client.Valid() && Uploaded(host, before, client.memory, copies') && Lists(remoteAddrs', copies', host)
      ensures Prepared(l, i + 1, copies', rpcArgs', tensorMap')
      ensures client.calls == calls + Uploads(remoteAddrs')
    {
      copies', remoteAddrs', rpcArgs', tensorMap' := copies, remoteAddrs, rpcArgs, tensorMap;
      if i in l.skipped {
        SkippedStep(l, i, copies, rpcArgs, tensorMap);
      } else if l.args[i].Tensor? {
        copies', remoteAddrs', rpcArgs', tensorMap' :=
          PrepareTensor(host, l, i, copies, remoteAddrs, rpcArgs, tensorMap, before, calls);
      } else {
        var b := Convert(l, i, tensorMap, copies);
        ConvertStep(l, i, copies, rpcArgs, tensorMap);
        rpcArgs' := rpcArgs + [b];
      }
    }

    method PrepareTensor(host: Memory, l: Launch, i: nat, copies: Copies, remoteAddrs: seq<Transfer>,
                         rpcArgs: seq<KernelArg>, tensorMap: map<int, int>, ghost before: Memory,
                         ghost calls: seq<Call>)
      returns (copies': Copies, remoteAddrs': seq<Transfer>, rpcArgs': seq<KernelArg>, tensorMap': map<int, int>)
      requires client.calls == calls + Uploads(remoteAddrs)
      requires client.Valid() && Uploaded(host, before, client.memory, copies) && Lists(remoteAddrs, copies, host)
      requires i < |l.args| && l.IsTensor(i) && TensorsOk(l, host) && Prepared(l, i, copies, rpcArgs, tensorMap)
      modifies client
      ensures client.Valid() && Uploaded(host, before, client.memory, copies') && Lists(remoteAddrs', copies', host)
      ensures Prepared(l, i + 1, copies', rpcArgs', tensorMap')
      ensures client.calls == calls + Uploads(remoteAddrs')
    {
      var t := l.args[i];
      var argPtr;
      copies', remoteAddrs', argPtr := PassTensor(host, t, copies, remoteAddrs, before, calls);
      TensorStep(l, i, copies, copies', rpcArgs, tensorMap, argPtr);
      rpcArgs' := rpcArgs + [TensorArg(t, argPtr)];
      tensorMap' := tensorMap[t.dataPtr := argPtr];
    }

    /** The remote address of a tensor, inside the copy of its storage. */
    method PassTensor(host: Memory, t: Arg, copies: Copies, remoteAddrs: seq<Transfer>,
                      ghost before: Memory, ghost calls: seq<Call>)
      returns (copies': Copies, remoteAddrs': seq<Transfer>, argPtr: int)
      requires client.calls == calls + Uploads(remoteAddrs)
      requires client.Valid() && Uploaded(host, before, client.memory, copies) && Lists(remoteAddrs, copies, host)
      requires t.Tensor? && t.storage in host
      modifies client
      ensures client.Valid() && Uploaded(host, before, client.memory, copies') && Lists(remoteAddrs', copies', host)
      ensures copies'.Keys == copies.Keys + {t.storage} && forall k :: k in copies ==> copies'[k] == copies[k]
      ensures argPtr == RemoteAddress(t, copies')
      ensures client.calls == calls + Uploads(remoteAddrs')
    {
      copies', remoteAddrs' := copies, remoteAddrs;
      if t.storage !in copies {
        copies', remoteAddrs' := Upload(host, t.storage, copies, remoteAddrs, before, calls);
      }
      argPtr := copies'[t.storage] + (t.dataPtr - t.storage);
    }

    /** An argument that is not a tensor. */
    method Convert(l: Launch, i: nat, tensorMap: map<int, int>, ghost copies: Copies) returns (b: KernelArg)
      requires i < |l.args| && i !in l.skipped && !l.args[i].Tensor?
      requires Knows(l, i, copies) && MapsTensors(l, i, copies, tensorMap)
      ensures Knows(l, i + 1, copies) && b == PassedArg(l, i, copies)
    {
      if i in l.pointers {
        match AsInt(l.args[i])
        case Some(ptrVal) => b := Ptr(if ptrVal in tensorMap then tensorMap[ptrVal] else ptrVal);
        case None => b := Ptr(0);
      } else {
        match l.args[i]
        case Integer(v) => b := I32(v);
        case Floating(bits, _) => b := F32(bits);
        case Object(asInt) => b := I32(if asInt.Some? then asInt.value else 0);
      }
    }

    /** Copy everything back and free it. */
    method ReadBack(host: Host, remoteAddrs: seq<Transfer>, ghost copies: Copies)
      requires client.Valid() && Lists(remoteAddrs, copies, host.storages)
      requires forall k :: k in copies ==> copies[k] in client.memory
      requires forall k, m :: k in copies && m in copies && k != m ==> copies[k] != copies[m]
      modifies host, client
      ensures client.Valid() && client.memory == Freed(old(client.memory), remoteAddrs)
      ensures host.storages == Restored(old(host.storages), old(client.memory), remoteAddrs)
      ensures client.calls == old(client.calls) + Readbacks(remoteAddrs)
    {
      assert forall j :: 0 <= j < |remoteAddrs| ==> remoteAddrs[j].address in client.memory;
      for j := 0 to |remoteAddrs|
        invariant client.Valid() && client.memory == Freed(old(client.memory), remoteAddrs[..j])
        invariant host.storages == Restored(old(host.storages), old(client.memory), remoteAddrs[..j])
        invariant client.calls == old(client.calls) + Readbacks(remoteAddrs[..j])
      {
        assert remoteAddrs[..j + 1] == remoteAddrs[..j] + [remoteAddrs[j]];
        StillThere(old(client.memory), old(host.storages), remoteAddrs, copies, j);
        OneMore(old(host.storages), old(client.memory), remoteAddrs[..j], remoteAddrs[j]);
        ReadOne(host, remoteAddrs[j]);
      }
      assert remoteAddrs[..|remoteAddrs|] == remoteAddrs;
    }

    method ReadOne(host: Host, t: Transfer)
      requires client.Valid() && t.address in client.memory
      modifies host, client
      ensures client.Valid() && client.memory == old(client.memory) - {t.address}
      ensures host.storages == old(host.storages)[t.storage := old(client.memory)[t.address]]
      ensures client.calls == old(client.calls) + [Read(t.address), Free(t.address)]
    {
      var data := client.ReadMemory(t.address);
      host.storages := host.storages[t.storage := data];
      client.FreeMemory(t.address);
    }
  }
}
