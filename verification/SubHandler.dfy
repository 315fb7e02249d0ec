/** Construction of a sub-handler for one component (SubDOFHandlerMultiDim): the loops that number
    the component's dofs on one process, the layout they hand to the exchange, and the transfer
    of vectors between parent and sub-handler. */
module SubHandler {
  import opened Lists
  import opened MeshModel

  // ---- numbering the component's dofs on one process --------------------------------------

  /** Owned dofs among the first n visits, in the order of their first visit. */
  function OwnedFirst(visits: seq<nat>, lsize: nat, n: nat): (s: seq<nat>)
    requires n <= |visits|
  {
    if n == 0 then []
    else
      var s, j := OwnedFirst(visits, lsize, n - 1), visits[n - 1];
      if j < lsize && j !in s then s + [j] else s
  }

  /** ... followed by the other dofs, in the order of their first visit. */
  function ThenGhosts(visits: seq<nat>, lsize: nat, n: nat): (s: seq<nat>)
    requires n <= |visits|
  {
    if n == 0 then OwnedFirst(visits, lsize, |visits|)
    else
      var s, j := ThenGhosts(visits, lsize, n - 1), visits[n - 1];
      if j !in s then s + [j] else s
  }

  lemma {:induction false} OwnedFirstHas(visits: seq<nat>, lsize: nat, n: nat)
    requires n <= |visits|
    ensures forall j :: j in OwnedFirst(visits, lsize, n) <==> j in visits[..n] && j < lsize
  {
    if n > 0 {
      OwnedFirstHas(visits, lsize, n - 1);
      assert visits[..n] == visits[..n - 1] + [visits[n - 1]];
    }
  }

  lemma {:induction false} ThenGhostsHas(visits: seq<nat>, lsize: nat, n: nat)
    requires n <= |visits|
    ensures OwnedFirst(visits, lsize, |visits|) <= ThenGhosts(visits, lsize, n)
    ensures forall j :: j in ThenGhosts(visits, lsize, n) <==>
      j in OwnedFirst(visits, lsize, |visits|) || j in visits[..n]
  {
    if n > 0 {
      ThenGhostsHas(visits, lsize, n - 1);
      assert visits[..n] == visits[..n - 1] + [visits[n - 1]];
    }
  }

  /** Parent indices of the sub-handler's local dofs (`parent_dof_idx_`). */
  function ParentIndices(visits: seq<nat>, lsize: nat): (s: seq<nat>) {
    ThenGhosts(visits, lsize, |visits|)
  }

  lemma {:induction false} OwnedDistinct(visits: seq<nat>, lsize: nat, n: nat)
    requires n <= |visits|
    ensures Distinct(OwnedFirst(visits, lsize, n))
  {
    if n > 0 {
      OwnedDistinct(visits, lsize, n - 1);
      if visits[n - 1] !in OwnedFirst(visits, lsize, n - 1) {
        DistinctAppend(OwnedFirst(visits, lsize, n - 1), [visits[n - 1]]);
      }
    }
  }

  lemma {:induction false} ThenGhostsDistinct(visits: seq<nat>, lsize: nat, n: nat)
    requires n <= |visits|
    ensures Distinct(ThenGhosts(visits, lsize, n))
    ensures forall i :: |OwnedFirst(visits, lsize, |visits|)| <= i < |ThenGhosts(visits, lsize, n)| ==>
      ThenGhosts(visits, lsize, n)[i] >= lsize
  {
    if n == 0 {
      OwnedDistinct(visits, lsize, |visits|);
    } else {
      ThenGhostsDistinct(visits, lsize, n - 1);
      var s, j := ThenGhosts(visits, lsize, n - 1), visits[n - 1];
      ThenGhostsHas(visits, lsize, n - 1);
      OwnedFirstHas(visits, lsize, |visits|);
      if j !in s {
        assert visits[..|visits|] == visits && j in visits;
        DistinctAppend(s, [j]);
      }
    }
  }

  /** Each visited dof is listed once, owned ones first. */
  lemma ParentIndicesOk(visits: seq<nat>, lsize: nat)
    ensures Distinct(ParentIndices(visits, lsize))
    ensures forall j :: j in ParentIndices(visits, lsize) <==> j in visits
    ensures var k := |OwnedFirst(visits, lsize, |visits|)|;
      k <= |ParentIndices(visits, lsize)|
      && forall i :: 0 <= i < |ParentIndices(visits, lsize)| ==>
           (ParentIndices(visits, lsize)[i] < lsize <==> i < k)
  {
    ThenGhostsDistinct(visits, lsize, |visits|);
    ThenGhostsHas(visits, lsize, |visits|);
    OwnedFirstHas(visits, lsize, |visits|);
    assert visits[..|visits|] == visits;
    var s, own := ParentIndices(visits, lsize), OwnedFirst(visits, lsize, |visits|);
    forall i | 0 <= i < |own|
      ensures s[i] < lsize
    {
      assert s[i] == own[i] && own[i] in own;
    }
  }

  /** The table holds the position of every listed dof, and INVALID_DOF for the others. */
  ghost predicate Locates(table: seq<int>, list: seq<nat>) {
    && (forall i :: 0 <= i < |list| ==> list[i] < |table| && table[list[i]] == i)
    && (forall j :: 0 <= j < |table| && j !in list ==> table[j] == INVALID_DOF)
  }

  /** The map sends the parent numbers of the listed dofs to their positions, and has no other keys. */
  ghost predicate MapsBack(map_: map<int, nat>, list: seq<nat>, parentL2g: seq<int>) {
    && (forall i :: 0 <= i < |list| ==>
          list[i] < |parentL2g| && parentL2g[list[i]] in map_ && map_[parentL2g[list[i]]] == i)
    && (forall g :: g in map_ ==>
          map_[g] < |list| && list[map_[g]] < |parentL2g| && parentL2g[list[map_[g]]] == g)
  }

  lemma MapsOneMore(map_: map<int, nat>, list: seq<nat>, parentL2g: seq<int>, j: nat)
    requires MapsBack(map_, list, parentL2g) && j < |parentL2g| && j !in list && Distinct(parentL2g)
    ensures MapsBack(map_[parentL2g[j] := |list|], list + [j], parentL2g)
  {
    var more := list + [j];
    assert forall i :: 0 <= i < |list| ==> more[i] == list[i] && list[i] in list;
  }

  /** From position `first` on, the numbers are the parent's. */
  ghost predicate ParentNumbers(l2g: seq<int>, idx: seq<nat>, parentL2g: seq<int>, first: nat) {
    |l2g| == |idx| && forall i :: first <= i < |l2g| ==> idx[i] < |parentL2g| && l2g[i] == parentL2g[idx[i]]
  }

  /** The dof indices of the first p visits point to the visited parent dofs. */
  ghost predicate PointTo(dofIndices: seq<int>, idx: seq<nat>, visits: seq<nat>, p: nat) {
    |dofIndices| == p <= |visits| && forall x :: 0 <= x < p ==>
      0 <= dofIndices[x] < |idx| && idx[dofIndices[x]] == visits[x]
  }

  class SubNumbering {
    /** Sub-local number of each parent dof. */
    var subLocal: seq<int>
    var parentDofIdx: seq<nat>
    var globalToLocal: map<int, nat>
    var l2g: seq<int>
    var dofIndices: seq<int>
    var lsize: nat

    constructor ()
      ensures subLocal == [] && parentDofIdx == [] && globalToLocal == map[] && l2g == [] && dofIndices == []
    {
      subLocal, parentDofIdx, globalToLocal, l2g, dofIndices, lsize := [], [], map[], [], [], 0;
    }

    /** What the first loop keeps: the owned dofs listed so far are numbered 0, 1, ... */
    ghost predicate OwnedListed(list: seq<nat>, parentL2g: seq<int>)
      reads this
    {
      && parentDofIdx == list && |subLocal| == |parentL2g| && Locates(subLocal, list)
      && |l2g| == |list| && (forall i :: 0 <= i < |l2g| ==> l2g[i] == i) && MapsBack(globalToLocal, list, parentL2g)
    }

    /** Visit of parent dof j in the first loop. */
    method NumberOne(j: nat, ghost list: seq<nat>, parentL2g: seq<int>, parentLsize: nat)
      requires j < |parentL2g| && Distinct(parentL2g) && OwnedListed(list, parentL2g)
      modifies this`subLocal, this`parentDofIdx, this`globalToLocal, this`l2g
      ensures OwnedListed(if j < parentLsize && j !in list then list + [j] else list, parentL2g)
    {
      assert j in list ==> subLocal[j] == Pos(list, j);
      if j < parentLsize && subLocal[j] == INVALID_DOF {
        MapsOneMore(globalToLocal, list, parentL2g, j);
        subLocal := subLocal[j := |l2g|];
        parentDofIdx := parentDofIdx + [j];
        globalToLocal := globalToLocal[parentL2g[j] := |l2g|];
        l2g := l2g + [|l2g|];
      }
    }

    method StartTables(parentL2g: seq<int>)
      requires parentDofIdx == [] && globalToLocal == map[] && l2g == []
      modifies this`subLocal
      ensures OwnedListed([], parentL2g)
    {
      subLocal := seq(|parentL2g|, _ => INVALID_DOF);
    }

    /** First loop: number the owned dofs of the component. */
    method NumberOwned(visits: seq<nat>, parentL2g: seq<int>, parentLsize: nat)
      requires forall p :: 0 <= p < |visits| ==> visits[p] < |parentL2g|
      requires Distinct(parentL2g)
      requires parentDofIdx == [] && globalToLocal == map[] && l2g == []
      modifies this
      ensures OwnedListed(OwnedFirst(visits, parentLsize, |visits|), parentL2g) && lsize == |l2g|
      ensures dofIndices == old(dofIndices)
    {
      StartTables(parentL2g);
      var p := 0;
      while p < |visits|
        invariant p <= |visits| && OwnedListed(OwnedFirst(visits, parentLsize, p), parentL2g)
        invariant dofIndices == old(dofIndices)
      {
        NumberOne(visits[p], OwnedFirst(visits, parentLsize, p), parentL2g, parentLsize);
        p := p + 1;
      }
      lsize := |l2g|;
    }

    /** List parent dof j unless it is listed already. */
    method EnsureListed(j: nat, parentL2g: seq<int>)
      requires j < |subLocal| == |parentL2g| && Locates(subLocal, parentDofIdx) && |l2g| == |parentDofIdx|
      modifies this`subLocal, this`parentDofIdx, this`l2g
      ensures |subLocal| == |parentL2g| && Locates(subLocal, parentDofIdx) && |l2g| == |parentDofIdx|
      ensures if j in old(parentDofIdx) then parentDofIdx == old(parentDofIdx) && l2g == old(l2g)
              else parentDofIdx == old(parentDofIdx) + [j] && l2g == old(l2g) + [parentL2g[j]]
      ensures 0 <= subLocal[j] < |parentDofIdx| && parentDofIdx[subLocal[j]] == j
    {
      assert j in parentDofIdx ==> subLocal[j] == Pos(parentDofIdx, j);
      if subLocal[j] == INVALID_DOF {
        subLocal := subLocal[j := |l2g|];
        parentDofIdx := parentDofIdx + [j];
        l2g := l2g + [parentL2g[j]];
      }
    }

    /** What the second loop keeps: the numbers of the first loop, and parent numbers after them. */
    ghost predicate GhostsListed(list: seq<nat>, visits: seq<nat>, p: nat, parentL2g: seq<int>, owned: seq<int>)
      reads this
    {
      && parentDofIdx == list && |subLocal| == |parentL2g| && Locates(subLocal, list) && owned <= l2g
        && lsize == |owned|
      && ParentNumbers(l2g, list, parentL2g, lsize) && PointTo(dofIndices, list, visits, p)
    }

    /** Second loop: append ghost dofs, with the parent's numbers for the time being, and fill the
        dof indices of all cells. */
    method NumberGhosts(visits: seq<nat>, parentL2g: seq<int>, ghost parentLsize: nat)
      requires forall p :: 0 <= p < |visits| ==> visits[p] < |parentL2g|
      requires OwnedListed(OwnedFirst(visits, parentLsize, |visits|), parentL2g) && lsize == |l2g| && dofIndices == []
      modifies this`subLocal, this`parentDofIdx, this`l2g, this`dofIndices
      ensures GhostsListed(ParentIndices(visits, parentLsize), visits, |visits|, parentL2g, old(l2g))
    {
      var p := 0;
      while p < |visits|
        invariant p <= |visits| && GhostsListed(ThenGhosts(visits, parentLsize, p), visits, p, parentL2g, old(l2g))
      {
        ListNext(visits, p, parentL2g, ThenGhosts(visits, parentLsize, p), old(l2g));
        p := p + 1;
      }
    }

    method ListNext(visits: seq<nat>, p: nat, parentL2g: seq<int>, ghost list: seq<nat>, ghost owned: seq<int>)
      requires p < |visits| && visits[p] < |parentL2g| && GhostsListed(list, visits, p, parentL2g, owned)
      modifies this`subLocal, this`parentDofIdx, this`l2g, this`dofIndices
      ensures GhostsListed(if visits[p] in list then list else list + [visits[p]], visits, p + 1, parentL2g, owned)
    {
      EnsureListed(visits[p], parentL2g);
      dofIndices := dofIndices + [subLocal[visits[p]]];
    }

    /** Shift the owned numbers by the offset of the process. */
    method ShiftOwned(offset: nat)
      requires lsize <= |l2g|
      modifies this`l2g
      ensures |l2g| == |old(l2g)| && l2g[lsize..] == old(l2g)[lsize..]
      ensures forall i :: 0 <= i < lsize ==> l2g[i] == old(l2g)[i] + offset
    {
      if offset > 0 {
        var i := 0;
        while i < lsize
          invariant i <= lsize && |l2g| == |old(l2g)| && l2g[lsize..] == old(l2g)[lsize..]
          invariant forall x :: 0 <= x < lsize ==> l2g[x] == old(l2g)[x] + if x < i then offset else 0
        {
          l2g := l2g[i := l2g[i] + offset];
          i := i + 1;
        }
      }
    }

    /** The owner's answer: every requested dof is found in its map. */
    method AnswerSub(wanted: seq<int>, begin: nat) returns (dofs: seq<int>)
      requires forall j :: 0 <= j < |wanted| ==> wanted[j] in globalToLocal
      ensures |dofs| == |wanted|
      ensures forall j :: 0 <= j < |wanted| ==> dofs[j] == globalToLocal[wanted[j]] + begin
    {
      dofs := [];
      var j := 0;
      while j < |wanted|
        invariant j <= |wanted| && |dofs| == j
        invariant forall x :: 0 <= x < j ==> dofs[x] == globalToLocal[wanted[x]] + begin
      {
        dofs := dofs + [globalToLocal[wanted[j]] + begin];
        j := j + 1;
      }
    }
  }

  // ---- vectors ----------------------------------------------------------------------------

  /** Sub-vector entries of a parent vector. */
  ghost function Gather(vec: seq<real>, idx: seq<nat>): (s: seq<real>)
    requires forall i :: 0 <= i < |idx| ==> idx[i] < |vec|
    ensures |s| == |idx| && forall i :: 0 <= i < |s| ==> s[i] == vec[idx[i]]
  {
    seq(|idx|, i requires 0 <= i < |idx| => vec[idx[i]])
  }

  method UpdateSubvector(idx: seq<nat>, vec: array<real>, sub: array<real>)
    requires sub.Length == |idx| && vec != sub && forall i :: 0 <= i < |idx| ==> idx[i] < vec.Length
    modifies sub
    ensures sub[..] == Gather(vec[..], idx)
  {
    var i := 0;
    while i < |idx|
      invariant i <= |idx| && forall x :: 0 <= x < i ==> sub[x] == vec[idx[x]]
    {
      sub[i] := vec[idx[i]];
      i := i + 1;
    }
  }

  /** Parent entries of the component take the sub-vector's values; all other entries stay. */
  method UpdateParentVector(idx: seq<nat>, vec: array<real>, sub: array<real>)
    requires sub.Length == |idx| && vec != sub && Distinct(idx) && forall i :: 0 <= i < |idx| ==> idx[i] < vec.Length
    modifies vec
    ensures Gather(vec[..], idx) == sub[..]
    ensures forall j :: 0 <= j < vec.Length && j !in idx ==> vec[j] == old(vec[j])
  {
    var i := 0;
    while i < |idx|
      invariant i <= |idx| && forall x :: 0 <= x < i ==> vec[idx[x]] == sub[x]
      invariant forall j :: 0 <= j < vec.Length && j !in idx[..i] ==> vec[j] == old(vec[j])
    {
      assert idx[..i + 1] == idx[..i] + [idx[i]];
      vec[idx[i]] := sub[i];
      i := i + 1;
    }
    assert idx[..i] == idx;
  }

  /** Writing the sub-vector into the parent and reading it back returns it. */
  method VectorRoundTrip(idx: seq<nat>, vec: array<real>, sub: array<real>)
    requires sub.Length == |idx| && vec != sub && Distinct(idx) && forall i :: 0 <= i < |idx| ==> idx[i] < vec.Length
    modifies vec, sub
    ensures sub[..] == old(sub[..])
    ensures forall j :: 0 <= j < vec.Length && j !in idx ==> vec[j] == old(vec[j])
  {
    UpdateParentVector(idx, vec, sub);
    UpdateSubvector(idx, vec, sub);
  }
}
