/** The resources of the frame graph: who uses a buffer last, and that every
    buffer is given back exactly once. */
module FrameGraph {
  import opened FrameProtocol

  /** A buffer is named by its allocation number; null after it was freed. */
  datatype Buffer = Null | Data(handle: nat)

  datatype Resource = Resource(buf: Buffer, size: nat, lastUse: nat)

  /** The index of the last pass that lists resource r, zero if none does. */
  function LastUse(uses: seq<seq<nat>>, r: nat): nat {
    if uses == [] then 0
    else if r in uses[|uses| - 1] then |uses| - 1
    else LastUse(uses[..|uses| - 1], r)
  }

  lemma LastUseAppend(uses: seq<seq<nat>>, used: seq<nat>, r: nat)
    ensures LastUse(uses + [used], r) == if r in used then |uses| else LastUse(uses, r)
  {
  }

  /** No later pass uses the resource. */
  lemma {:induction false} LastUseIsLast(uses: seq<seq<nat>>, r: nat)
    ensures uses != [] ==> LastUse(uses, r) < |uses|
    ensures forall p :: LastUse(uses, r) < p < |uses| ==> r !in uses[p]
    ensures (forall p :: 0 <= p < |uses| ==> r !in uses[p]) ==> LastUse(uses, r) == 0
  {
    if uses != [] { LastUseIsLast(uses[..|uses| - 1], r); }
  }

  /** Pass `pass` is the last one that lists resource r; a resource that no pass lists goes
      with the first pass. */
  ghost predicate LastListed(uses: seq<seq<nat>>, pass: nat, r: nat) {
    && (forall p :: pass < p < |uses| ==> r !in uses[p])
    && if pass < |uses| && r in uses[pass] then true else pass == 0
  }

  lemma LastUseIsListed(uses: seq<seq<nat>>, pass: nat, r: nat)
    ensures LastUse(uses, r) == pass <==> LastListed(uses, pass, r)
  {
    LastUseIsLast(uses, r);
    LastUseIsUse(uses, r);
  }

  lemma {:induction false} LastUseIsUse(uses: seq<seq<nat>>, r: nat)
    ensures LastUse(uses, r) > 0 ==> LastUse(uses, r) < |uses| && r in uses[LastUse(uses, r)]
  {
    if uses != [] && r !in uses[|uses| - 1] { LastUseIsUse(uses[..|uses| - 1], r); }
  }

  /** How many resources hold buffer h. */
  function Holders(rs: seq<Resource>, h: nat): nat {
    if rs == [] then 0 else (if rs[0].buf == Data(h) then 1 else 0) + Holders(rs[1..], h)
  }

  lemma {:induction false} HoldersAppend(rs: seq<Resource>, r: Resource, h: nat)
    ensures Holders(rs + [r], h) == Holders(rs, h) + (if r.buf == Data(h) then 1 else 0)
  {
    if rs == [] {
      assert rs + [r] == [r];
    } else {
      assert (rs + [r])[1..] == rs[1..] + [r];
      HoldersAppend(rs[1..], r, h);
    }
  }

  lemma {:induction false} HoldersUpdate(rs: seq<Resource>, i: nat, r: Resource, h: nat)
    requires i < |rs|
    ensures Holders(rs[i := r], h) + (if rs[i].buf == Data(h) then 1 else 0)
         == Holders(rs, h) + (if r.buf == Data(h) then 1 else 0)
  {
    if i == 0 {
      assert rs[i := r][1..] == rs[1..];
    } else {
      assert rs[i := r][1..] == rs[1..][i - 1 := r];
      HoldersUpdate(rs[1..], i - 1, r, h);
    }
  }

  lemma {:induction false} HoldersOfNull(rs: seq<Resource>, h: nat)
    requires forall i :: 0 <= i < |rs| ==> rs[i].buf.Null?
    ensures Holders(rs, h) == 0
  {
    if rs != [] { HoldersOfNull(rs[1..], h); }
  }

  lemma {:induction false} HoldersIgnoreUse(a: seq<Resource>, b: seq<Resource>, h: nat)
    requires |a| == |b| && forall i :: 0 <= i < |a| ==> a[i].buf == b[i].buf
    ensures Holders(a, h) == Holders(b, h)
  {
    if a != [] { HoldersIgnoreUse(a[1..], b[1..], h); }
  }

  /** Every buffer ever allocated is held by one resource or was freed once. */
  ghost predicate Conserved(rs: seq<Resource>, freed: multiset<nat>, allocations: nat) {
    forall h: nat :: Holders(rs, h) + freed[h] == if h < allocations then 1 else 0
  }

  class Graph {
    var passes: seq<Pass>
    var resources: seq<Resource>
    var allocations: nat
    ghost var uses: seq<seq<nat>>
    ghost var freed: multiset<nat>

    ghost predicate Valid()
      reads this
    {
      && |uses| == |passes|
      && (forall r :: 0 <= r < |resources| ==> resources[r].lastUse == LastUse(uses, r))
      && (forall p, r :: 0 <= p < |uses| && r in uses[p] ==> r < |resources|)
      && Conserved(resources, freed, allocations)
    }

    constructor ()
      ensures Valid() && passes == [] && resources == [] && allocations == 0 && freed == multiset{}
    {
      passes, resources, allocations := [], [], 0;
      uses, freed := [], multiset{};
    }

    method CreateResource(bytes: nat) returns (index: nat)
      requires Valid()
      modifies this
      ensures Valid() && passes == old(passes) && uses == old(uses) && freed == old(freed)
      ensures index == old(|resources|) && allocations == old(allocations) + 1
      ensures resources == old(resources) + [Resource(Data(old(allocations)), bytes, 0)]
    {
      index := |resources|;
      var r := Resource(Data(allocations), bytes, 0);
      forall h: nat ensures Holders(resources + [r], h) + freed[h] == if h < allocations + 1 then 1 else 0 {
        HoldersAppend(resources, r, h);
      }
      LastUseIsLast(uses, index);
      resources := resources + [r];
      allocations := allocations + 1;
    }

    /** Records a pass as the last user so far of each resource it lists. */
    method MarkUsed(used: seq<nat>, pass: nat)
      requires forall r :: r in used ==> r < |resources|
      modifies this`resources
      ensures |resources| == old(|resources|)
      ensures forall r :: 0 <= r < |resources| ==>
                resources[r] == if r in used then old(resources[r]).(lastUse := pass) else old(resources[r])
    {
      for i := 0 to |used|
        invariant |resources| == old(|resources|)
        invariant forall r :: 0 <= r < |resources| ==>
                    resources[r] == if r in used[..i] then old(resources[r]).(lastUse := pass) else old(resources[r])
      {
        var r := used[i];
        assert r in used;
        resources := resources[r := resources[r].(lastUse := pass)];
        assert used[..i + 1] == used[..i] + [r];
      }
      assert used[..|used|] == used;
    }

    method AddPass(pass: Pass, used: seq<nat>) returns (index: nat)
      requires Valid()
      requires forall r :: r in used ==> r < |resources|
      modifies this
      ensures Valid() && allocations == old(allocations) && freed == old(freed)
      ensures index == old(|passes|) && passes == old(passes) + [pass] && uses == old(uses) + [used]
      ensures |resources| == old(|resources|)
      ensures forall r :: 0 <= r < |resources| ==>
                resources[r] == if r in used then old(resources[r]).(lastUse := index) else old(resources[r])
    {
      index := |passes|;
      MarkUsed(used, index);
      forall h: nat ensures Holders(resources, h) == Holders(old(resources), h) {
        HoldersIgnoreUse(resources, old(resources), h);
      }
      forall r | 0 <= r < |resources| ensures resources[r].lastUse == LastUse(uses + [used], r) {
        LastUseAppend(uses, used, r);
      }
      passes := passes + [pass];
      uses := uses + [used];
    }

    /** `hal::free` of one buffer, and the slot cleared. The buffer was not freed before. */
    method GiveBack(i: nat)
      requires Valid() && i < |resources| && resources[i].buf.Data?
      modifies this`resources, this`freed
      ensures Valid()
      ensures old(freed)[old(resources[i].buf.handle)] == 0
      ensures freed == old(freed) + multiset{old(resources[i].buf.handle)}
      ensures resources == old(resources)[i := Resource(Null, 0, old(resources[i].lastUse))]
    {
      var r, handle := Resource(Null, 0, resources[i].lastUse), resources[i].buf.handle;
      HoldersUpdate(resources, i, r, handle);
      forall h: nat ensures Holders(resources[i := r], h) + (if h == handle then 1 else 0) == Holders(resources, h) {
        HoldersUpdate(resources, i, r, h);
      }
      freed := freed + multiset{handle};
      resources := resources[i := r];
    }

    /** Frees the buffers that this pass is the last to list, and nothing else. */
    method FreeDead(pass: nat)
      requires Valid()
      modifies this`resources, this`freed
      ensures Valid()
      ensures |resources| == old(|resources|)
      ensures forall r :: 0 <= r < |resources| ==>
                resources[r] == if old(resources[r].buf).Data? && LastListed(uses, pass, r)
                                then Resource(Null, 0, old(resources[r].lastUse)) else old(resources[r])
    {
      for i := 0 to |resources|
        invariant Valid()
        invariant |resources| == old(|resources|)
        invariant forall r :: 0 <= r < |resources| ==>
                    resources[r] == if r < i && old(resources[r].buf).Data? && LastListed(uses, pass, r)
                                    then Resource(Null, 0, old(resources[r].lastUse)) else old(resources[r])
      {
        LastUseIsListed(uses, pass, i);
        if resources[i].buf.Data? && resources[i].lastUse == pass {
          GiveBack(i);
        }
      }
    }

    /** The freeing loop at the end of `execute`: with at least one pass every
        buffer is given back, with none nothing is. */
    method FreeAfterExecute()
      requires Valid()
      modifies this`resources, this`freed
      ensures Valid()
      ensures passes == [] ==> resources == old(resources) && freed == old(freed)
      ensures passes != [] ==> forall r :: 0 <= r < |resources| ==> resources[r].buf.Null?
      ensures passes != [] ==> forall h: nat :: freed[h] == if h < allocations then 1 else 0
    {
      for p := 0 to |passes|
        invariant Valid()
        invariant p == 0 ==> resources == old(resources) && freed == old(freed)
        invariant forall r :: 0 <= r < |resources| && resources[r].lastUse < p ==> resources[r].buf.Null?
      {
        FreeDead(p);
        forall r | 0 <= r < |resources| && resources[r].lastUse == p ensures resources[r].buf.Null? {
          LastUseIsListed(uses, p, r);
        }
      }
      if passes != [] {
        forall r | 0 <= r < |resources| ensures resources[r].buf.Null? { LastUseIsLast(uses, r); }
        forall h: nat ensures Holders(resources, h) == 0 { HoldersOfNull(resources, h); }
      }
    }

    /** The destructor: afterwards every buffer ever allocated was freed once. */
    method Destroy()
      requires Valid()
      modifies this`freed
      ensures forall h: nat :: freed[h] == if h < allocations then 1 else 0
    {
      assert resources[0..] == resources;
      for i := 0 to |resources|
        invariant Conserved(resources[i..], freed, allocations)
      {
        assert resources[i..][1..] == resources[i + 1..];
        forall h: nat
          ensures Holders(resources[i..], h)
                  == (if resources[i].buf == Data(h) then 1 else 0) + Holders(resources[i + 1..], h)
        {
        }
        if resources[i].buf.Data? {
          freed := freed + multiset{resources[i].buf.handle};
        }
      }
    }
  }
}
