/** Joins the loops of module SubHandler to the exchange of module SubExchange: the tables that a
    process builds are its part of the layout, its answers are those of the model, and entering an
    answer gives the ghost numbers of the model. */
module SubSession {
  import opened Lists
  import opened SubHandler
  import opened SubExchange
  import opened SubDistribute

  type GoodSubLayout = L: SubLayout | SubOk(L) ghost witness SubLayout([], [0], [], [])

  ghost function Layout(P: Parent): (L: GoodSubLayout)
    requires ParentOk(P)
    ensures L == SubLayoutOf(P)
  {
    SubLayoutOk(P);
    SubLayoutOf(P)
  }

  /** The tables of process r: its owned dofs have their sub-numbers and are found in the map, and
      its ghost dofs have the given numbers. */
  ghost predicate Stands(L: GoodSubLayout, r: nat, t: SubNumbering, ghostNumbers: seq<int>)
    requires r < |L.nbs|
    reads t
  {
    && t.lsize <= |t.l2g| && OwnedNumbered(L, r, t.l2g[..t.lsize]) && t.l2g[t.lsize..] == ghostNumbers
    && |ghostNumbers| == |L.ghosts[r]| && Finds(t.globalToLocal, L.owned[r])
  }

  ghost predicate OwnedNumbered(L: GoodSubLayout, r: nat, numbers: seq<int>)
    requires r < |L.nbs|
  {
    && |numbers| == |L.owned[r]|
    && forall i :: 0 <= i < |numbers| ==> HasOwner(L, L.owned[r][i]) && numbers[i] == SubNumber(L, L.owned[r][i])
  }

  lemma ShiftedIsNumbered(L: GoodSubLayout, r: nat, numbers: seq<int>)
    requires r < |L.nbs| && |numbers| == |L.owned[r]|
    requires forall i :: 0 <= i < |numbers| ==> numbers[i] == Start(OwnedSizes(L), r) + i
    ensures OwnedNumbered(L, r, numbers)
  {
    forall i: nat | i < |numbers|
      ensures HasOwner(L, L.owned[r][i]) && numbers[i] == SubNumber(L, L.owned[r][i])
    {
      SubNumberOfOwned(L, r, i);
    }
  }

  /** The map sends each entry to its position, and has no other keys. */
  ghost predicate Finds(map_: map<int, nat>, s: seq<int>) {
    (forall i :: 0 <= i < |s| ==> s[i] in map_ && map_[s[i]] == i) && (forall g :: g in map_ ==> g in s)
  }

  lemma MapFindsOwned(P: Parent, r: nat, map_: map<int, nat>)
    requires ParentOk(P) && r < |P.nbs|
    requires var v := AllVisits(P, r); MapsBack(map_, OwnedFirst(v, P.lsizes[r], |v|), P.tables[r].l2g)
    ensures Finds(map_, OwnedNumbers(P, r))
  {
    var v, l2g := AllVisits(P, r), P.tables[r].l2g;
    var own := OwnedFirst(v, P.lsizes[r], |v|);
    ListedInRange(v, P.lsizes[r], |l2g|);
    forall g | g in map_
      ensures g in OwnedNumbers(P, r)
    {
      assert OwnedNumbers(P, r)[map_[g]] == g;
    }
  }

  lemma TailIsGhosts(P: Parent, r: nat, l2g: seq<int>, lsize: nat)
    requires ParentOk(P) && r < |P.nbs|
    requires var v := AllVisits(P, r);
      && ParentNumbers(l2g, ParentIndices(v, P.lsizes[r]), P.tables[r].l2g, lsize)
      && lsize == |OwnedFirst(v, P.lsizes[r], |v|)| <= |l2g|
    ensures l2g[lsize..] == GhostNumbers(P, r)
  {
    var v := AllVisits(P, r);
    ListedInRange(v, P.lsizes[r], |P.tables[r].l2g|);
    ParentIndicesOk(v, P.lsizes[r]);
  }

  /** Owned dofs are numbered 0, 1, ... and found in the map; ghost dofs have the parent's numbers. */
  method NumberAll(ghost P: Parent, ghost r: nat, visits: seq<nat>, parentL2g: seq<int>, parentLsize: nat)
    returns (t: SubNumbering)
    requires ParentOk(P) && r < |P.nbs| && TablesOk(P, r) && visits == AllVisits(P, r)
    requires parentL2g == P.tables[r].l2g && parentLsize == P.lsizes[r]
    ensures fresh(t) && t.lsize == |OwnedNumbers(P, r)| <= |t.l2g| && Finds(t.globalToLocal, OwnedNumbers(P, r))
    ensures t.l2g[t.lsize..] == GhostNumbers(P, r) && forall i :: 0 <= i < t.lsize ==> t.l2g[i] == i
  {
    t := new SubNumbering();
    t.NumberOwned(visits, parentL2g, parentLsize);
    MapFindsOwned(P, r, t.globalToLocal);
    t.NumberGhosts(visits, parentL2g, parentLsize);
    TailIsGhosts(P, r, t.l2g, t.lsize);
  }

  /** The construction of a process: numbering and shift. */
  method Construct(ghost P: Parent, ghost r: nat, visits: seq<nat>, parentL2g: seq<int>, parentLsize: nat, offset: nat)
    returns (t: SubNumbering)
    requires ParentOk(P) && r < |P.nbs| && TablesOk(P, r) && visits == AllVisits(P, r)
    requires parentL2g == P.tables[r].l2g && parentLsize == P.lsizes[r] && offset == Start(OwnedSizes(Layout(P)), r)
    ensures fresh(t) && Stands(Layout(P), r, t, Init(Layout(P))[r].ghostNumbers)
  {
    t := NumberAll(P, r, visits, parentL2g, parentLsize);
    t.ShiftOwned(offset);
    ShiftedIsNumbered(Layout(P), r, t.l2g[..t.lsize]);
  }

  /** The answer is that of the model. */
  method Answer(ghost L: GoodSubLayout, ghost q: nat, t: SubNumbering, ghost ghostNumbers: seq<int>, wanted: seq<int>,
                begin: nat) returns (dofs: seq<int>)
    requires q < |L.nbs| && Stands(L, q, t, ghostNumbers)
    requires begin == Start(OwnedSizes(L), q) && Found(L, q, wanted)
    ensures dofs == SubAnswer(L, q, wanted)
  {
    dofs := t.AnswerSub(wanted, begin);
  }

  /** Ghost entries owned by q take the received numbers. */
  method TakeAnswer(L: GoodSubLayout, r: nat, q: nat, t: SubNumbering, ghost ghostNumbers: seq<int>, dofs: seq<int>)
    requires r < |L.nbs| && Stands(L, r, t, ghostNumbers) && |dofs| == |Ask(L, r, q)|
    modifies t`l2g
    ensures Stands(L, r, t, Updated(L, L.ghosts[r], q, ghostNumbers, dofs, |L.ghosts[r]|))
  {
    var after := UpdateGhosts(L, L.ghosts[r], q, t.l2g[t.lsize..], dofs);
    t.l2g := t.l2g[..t.lsize] + after;
  }
}
