/** First-fit allocation of port blocks: a block is a slot counted from the base port. */
module PortRegistries {
  import opened Sorting
  import opened Wrappers

  const MAX_PORT := 65535

  datatype Ports = Ports(proxy: int, channel: int, service: int, database: int)

  datatype PortAllocation = PortAllocation(username: string, basePort: int, ports: Ports)

  datatype RegistryData = RegistryData(basePort: int, portsPerUser: int, allocations: seq<PortAllocation>)

  datatype Error = AlreadyAllocated | Exhausted | NotAllocated | Io

  datatype Conflict = Overlap(first: int, second: int) | Duplicate(first: int, second: int)

  // ---------- slots ----------

  /** The first port of slot `k`. */
  function Base(d: RegistryData, k: int): int {
    d.basePort + k * d.portsPerUser
  }

  predicate Fits(d: RegistryData, base: int) {
    base + d.portsPerUser - 1 <= MAX_PORT
  }

  ghost predicate Taken(d: RegistryData, base: int) {
    exists i :: 0 <= i < |d.allocations| && d.allocations[i].basePort == base
  }

  ghost predicate HasUser(d: RegistryData, username: string) {
    exists i :: 0 <= i < |d.allocations| && d.allocations[i].username == username
  }

  /** Slot `k` is free, and every slot below it is taken. */
  ghost predicate LowestFree(d: RegistryData, k: nat) {
    !Taken(d, Base(d, k)) && forall j :: 0 <= j < k ==> Taken(d, Base(d, j))
  }

  ghost predicate AllTaken(d: RegistryData) {
    forall k: nat :: Fits(d, Base(d, k)) ==> Taken(d, Base(d, k))
  }

  function PortsOf(base: int): Ports {
    Ports(base, base + 1, base + 2, base + 3)
  }

  ghost predicate OnSlot(d: RegistryData, a: PortAllocation) {
    && (exists k: nat :: a.basePort == Base(d, k))
    && Fits(d, a.basePort) && a.ports == PortsOf(a.basePort)
  }

  /** Every allocation is a whole slot below the maximum port; no user and no slot occurs twice. */
  ghost predicate Valid(d: RegistryData) {
    && d.portsPerUser >= 1
    && (forall i :: 0 <= i < |d.allocations| ==> OnSlot(d, d.allocations[i]))
    && (forall i, j :: 0 <= i < j < |d.allocations| ==> d.allocations[i].basePort != d.allocations[j].basePort)
    && (forall i, j :: 0 <= i < j < |d.allocations| ==> d.allocations[i].username != d.allocations[j].username)
  }

  lemma BaseStep(d: RegistryData, j: int, k: int)
    requires d.portsPerUser >= 1 && j < k
    ensures Base(d, j) + d.portsPerUser <= Base(d, k)
  {
    var gap := k - j - 1;
    assert gap * d.portsPerUser >= 0;
    assert k * d.portsPerUser == j * d.portsPerUser + d.portsPerUser + gap * d.portsPerUser;
  }

  lemma ExhaustedMeansTaken(d: RegistryData, k: nat)
    requires d.portsPerUser >= 1 && LowestFree(d, k)
    ensures AllTaken(d) <==> !Fits(d, Base(d, k))
  {
    forall j: nat | !Fits(d, Base(d, k)) && Fits(d, Base(d, j)) ensures Taken(d, Base(d, j)) {
      if j > k {
        BaseStep(d, k, j);
      }
    }
  }

  // ---------- used bases ----------

  /** Bases are compared as numbers. */
  function AsReal(x: int): real {
    x as real
  }

  function Bases(allocations: seq<PortAllocation>): (r: seq<int>)
    ensures |r| == |allocations| && forall i :: 0 <= i < |r| ==> r[i] == allocations[i].basePort
  {
    if |allocations| == 0 then [] else [allocations[0].basePort] + Bases(allocations[1..])
  }

  // ---------- the registry ----------

  /** The registry file holds `data`; reading and writing it can fail. */
  class PortRegistry {
    var data: RegistryData

    constructor (basePort: int, portsPerUser: int)
      requires portsPerUser >= 1
      ensures data == RegistryData(basePort, portsPerUser, []) && Valid(data)
    {
      data := RegistryData(basePort, portsPerUser, []);
    }

    method FileOperation() returns (ok: bool)
    {
      ok := *;
    }

    method FindUser(username: string) returns (idx: int)
      ensures -1 <= idx < |data.allocations|
      ensures idx >= 0 ==> data.allocations[idx].username == username
      ensures idx == -1 <==> !HasUser(data, username)
    {
      idx := 0;
      while idx < |data.allocations|
        invariant 0 <= idx <= |data.allocations|
        invariant forall i :: 0 <= i < idx ==> data.allocations[i].username != username
      {
        if data.allocations[idx].username == username {
          return;
        }
        idx := idx + 1;
      }
      return -1;
    }

    /** The loop over the sorted bases ends on the lowest free slot. */
    method FirstFit() returns (nextBase: int)
      requires data.portsPerUser >= 1
      ensures exists k: nat :: nextBase == Base(data, k) && LowestFree(data, k)
    {
      var usedBases := Sort(Bases(data.allocations), AsReal);
      SortedBases(data);
      nextBase := data.basePort;
      ghost var k: nat := 0;
      for i := 0 to |usedBases|
        invariant nextBase == Base(data, k)
        invariant forall j :: 0 <= j < k ==> Base(data, j) in usedBases
        invariant nextBase !in usedBases[..i]
      {
        var used := usedBases[i];
        if nextBase == used {
          nextBase := used + data.portsPerUser;
          k := k + 1;
          assert forall j :: 0 <= j <= i ==> usedBases[j] <= used;
        }
      }
      assert usedBases[..|usedBases|] == usedBases;
      assert LowestFree(data, k);
    }

    /** For a new user the lowest free slot; refused as exhausted exactly when every slot that fits is taken. */
    method Allocate(username: string) returns (r: Result<PortAllocation, Error>)
      requires Valid(data)
      modifies this
      ensures Valid(data)
      ensures r.Err? ==> data == old(data)
      ensures r == Err(AlreadyAllocated) ==> HasUser(old(data), username)
      ensures r == Err(Exhausted) ==> !HasUser(old(data), username) && AllTaken(old(data))
      ensures r.Ok? ==> !HasUser(old(data), username) && !AllTaken(old(data))
      ensures r.Ok? ==> exists k: nat :: LowestFree(old(data), k) && r.value.basePort == Base(old(data), k)
      ensures r.Ok? ==> r.value.username == username && r.value.ports == PortsOf(r.value.basePort)
      ensures r.Ok? ==> var base := r.value.basePort;
        && r.value.ports.proxy == base && r.value.ports.channel == base + 1
        && r.value.ports.service == base + 2 && r.value.ports.database == base + 3
      ensures r.Ok? ==> data == old(data).(allocations := old(data).allocations + [r.value])
    {
      var read := FileOperation();
      if !read {
        return Err(Io);
      }
      var existing := FindUser(username);
      if existing >= 0 {
        return Err(AlreadyAllocated);
      }
      var nextBase := FirstFit();
      ghost var k: nat :| nextBase == Base(data, k) && LowestFree(data, k);
      ExhaustedMeansTaken(data, k);
      if nextBase + data.portsPerUser - 1 > MAX_PORT {
        return Err(Exhausted);
      }
      var allocation := PortAllocation(username, nextBase, PortsOf(nextBase));
      var written := FileOperation();
      if !written {
        return Err(Io);
      }
      AllocateKeeps(data, allocation, k);
      data := data.(allocations := data.allocations + [allocation]);
      return Ok(allocation);
    }

    method Free(username: string) returns (r: Result<PortAllocation, Error>)
      requires Valid(data)
      modifies this
      ensures Valid(data)
      ensures r.Err? ==> data == old(data)
      ensures r == Err(NotAllocated) ==> !HasUser(old(data), username)
      ensures r.Ok? ==> r.value in old(data).allocations && r.value.username == username && !HasUser(data, username)
      ensures r.Ok? ==> exists i :: RemovedAt(old(data), data, i) && old(data).allocations[i] == r.value
    {
      var read := FileOperation();
      if !read {
        return Err(Io);
      }
      var idx := FindUser(username);
      if idx == -1 {
        return Err(NotAllocated);
      }
      var written := FileOperation();
      if !written {
        return Err(Io);
      }
      var removed := data.allocations[idx];
      FreeKeeps(data, idx);
      data := data.(allocations := data.allocations[..idx] + data.allocations[idx + 1..]);
      assert RemovedAt(old(data), data, idx);
      return Ok(removed);
    }

    /** Lists exactly the pairs whose blocks overlap and the pairs of one user. */
    method DetectConflicts() returns (conflicts: seq<Conflict>)
      ensures forall c :: c in conflicts <==> IsConflict(data, c)
    {
      conflicts := [];
      for i := 0 to |data.allocations|
        invariant forall c :: c in conflicts <==> IsConflict(data, c) && c.first < i
      {
        var a := data.allocations[i];
        ghost var before := conflicts;
        for j := i + 1 to |data.allocations|
          invariant forall c :: c in conflicts <==>
                      IsConflict(data, c) && (c.first < i || (c.Overlap? && c.first == i && c.second < j))
        {
          var b := data.allocations[j];
          if a.basePort <= b.basePort + data.portsPerUser - 1 && b.basePort <= a.basePort + data.portsPerUser - 1 {
            conflicts := conflicts + [Overlap(i, j)];
          }
        }
        for j := i + 1 to |data.allocations|
          invariant forall c :: c in conflicts <==>
            IsConflict(data, c) && (c.first < i || (c.first == i && (c.Overlap? || c.second < j)))
        {
          if a.username == data.allocations[j].username {
            conflicts := conflicts + [Duplicate(i, j)];
          }
        }
      }
    }
  }

  ghost predicate RemovedAt(d: RegistryData, after: RegistryData, i: int) {
    && 0 <= i < |d.allocations|
    && after == d.(allocations := d.allocations[..i] + d.allocations[i + 1..])
  }

  ghost predicate IsConflict(d: RegistryData, c: Conflict) {
    && 0 <= c.first < c.second < |d.allocations|
    && var a, b := d.allocations[c.first], d.allocations[c.second];
       match c
       case Overlap(_, _) =>
         a.basePort <= b.basePort + d.portsPerUser - 1 && b.basePort <= a.basePort + d.portsPerUser - 1
       case Duplicate(_, _) => a.username == b.username
  }

  /** The sorted bases ascend and are exactly the taken ones. */
  lemma SortedBases(d: RegistryData)
    ensures forall i, j :: 0 <= i < j < |Sort(Bases(d.allocations), AsReal)| ==>
              Sort(Bases(d.allocations), AsReal)[i] <= Sort(Bases(d.allocations), AsReal)[j]
    ensures forall b :: b in Sort(Bases(d.allocations), AsReal) <==> Taken(d, b)
  {
    hide Sort;
    var bases := Bases(d.allocations);
    var sorted := Sort(bases, AsReal);
    SortAscending(bases, AsReal);
    forall i, j | 0 <= i < j < |sorted| ensures sorted[i] <= sorted[j] {
      assert AsReal(sorted[i]) <= AsReal(sorted[j]);
    }
    forall b ensures b in sorted <==> Taken(d, b) {
      Member(sorted, bases, b);
      UsedIsTaken(d, b);
    }
  }

  lemma UsedIsTaken(d: RegistryData, b: int)
    ensures b in Bases(d.allocations) <==> Taken(d, b)
  {
    if Taken(d, b) {
      var i :| 0 <= i < |d.allocations| && d.allocations[i].basePort == b;
      assert Bases(d.allocations)[i] == b;
    }
  }

  lemma AllocateKeeps(d: RegistryData, a: PortAllocation, k: nat)
    requires Valid(d) && !HasUser(d, a.username) && !Taken(d, a.basePort)
    requires a.basePort == Base(d, k) && Fits(d, a.basePort) && a.ports == PortsOf(a.basePort)
    ensures Valid(d.(allocations := d.allocations + [a]))
  {
    var after := d.(allocations := d.allocations + [a]);
    forall i | 0 <= i < |after.allocations| ensures OnSlot(after, after.allocations[i]) {
      if i < |d.allocations| {
        SlotStays(d, after, d.allocations[i]);
      } else {
        assert a.basePort == Base(after, k);
      }
    }
  }

  lemma SlotStays(d: RegistryData, after: RegistryData, a: PortAllocation)
    requires OnSlot(d, a) && after.basePort == d.basePort && after.portsPerUser == d.portsPerUser
    ensures OnSlot(after, a)
  {
    var k: nat :| a.basePort == Base(d, k);
    assert a.basePort == Base(after, k);
  }

  lemma FreeKeeps(d: RegistryData, idx: nat)
    requires Valid(d) && idx < |d.allocations|
    ensures var after := d.(allocations := d.allocations[..idx] + d.allocations[idx + 1..]);
      Valid(after) && !HasUser(after, d.allocations[idx].username)
  {
    var after := d.(allocations := d.allocations[..idx] + d.allocations[idx + 1..]);
    assert forall i :: 0 <= i < |after.allocations| ==>
             after.allocations[i] == d.allocations[if i < idx then i else i + 1];
    forall i | 0 <= i < |after.allocations| ensures OnSlot(after, after.allocations[i]) {
      SlotStays(d, after, d.allocations[if i < idx then i else i + 1]);
    }
  }

  // ---------- disjoint blocks ----------

  /** Over every run of allocate and free: all blocks are disjoint, so no conflict is ever reported. */
  lemma ValidHasNoConflict(d: RegistryData)
    requires Valid(d)
    ensures forall c :: !IsConflict(d, c)
    ensures forall i, j :: 0 <= i < j < |d.allocations| ==>
      d.allocations[i].basePort + d.portsPerUser <= d.allocations[j].basePort
      || d.allocations[j].basePort + d.portsPerUser <= d.allocations[i].basePort
  {
    forall i, j | 0 <= i < j < |d.allocations|
      ensures d.allocations[i].basePort + d.portsPerUser <= d.allocations[j].basePort
        || d.allocations[j].basePort + d.portsPerUser <= d.allocations[i].basePort
    {
      BlocksApart(d, i, j);
    }
    forall c ensures !IsConflict(d, c) {
      if 0 <= c.first < c.second < |d.allocations| {
        BlocksApart(d, c.first, c.second);
      }
    }
  }

  lemma BlocksApart(d: RegistryData, i: int, j: int)
    requires Valid(d) && 0 <= i < j < |d.allocations|
    ensures d.allocations[i].basePort + d.portsPerUser <= d.allocations[j].basePort
      || d.allocations[j].basePort + d.portsPerUser <= d.allocations[i].basePort
  {
    assert OnSlot(d, d.allocations[i]) && OnSlot(d, d.allocations[j]);
    var k: nat :| d.allocations[i].basePort == Base(d, k);
    var m: nat :| d.allocations[j].basePort == Base(d, m);
    if k < m {
      BaseStep(d, k, m);
    } else {
      assert k != m;
      BaseStep(d, m, k);
    }
  }

  // ---------- the named ports ----------

  function PortSet(p: Ports): set<int> {
    {p.proxy, p.channel, p.service, p.database}
  }

  ghost predicate NamedPortsDistinct(d: RegistryData) {
    forall j: nat, k: nat :: j < k ==> PortSet(PortsOf(Base(d, j))) !! PortSet(PortsOf(Base(d, k)))
  }

  /** The four named ports of different slots never clash exactly when a block has room for them. */
  lemma NamedPortsDistinctIff(d: RegistryData)
    requires d.portsPerUser >= 1
    ensures NamedPortsDistinct(d) <==> d.portsPerUser >= 4
  {
    if d.portsPerUser >= 4 {
      forall j: nat, k: nat | j < k ensures PortSet(PortsOf(Base(d, j))) !! PortSet(PortsOf(Base(d, k))) {
        BaseStep(d, j, k);
      }
    } else {
      var shared := Base(d, 1);
      assert shared == Base(d, 0) + d.portsPerUser;
      assert shared in PortSet(PortsOf(Base(d, 0))) && shared in PortSet(PortsOf(Base(d, 1)));
      assert !(PortSet(PortsOf(Base(d, 0))) !! PortSet(PortsOf(Base(d, 1))));
    }
  }
}
