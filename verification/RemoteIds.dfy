/** Identifiers of remote objects: each process keeps the last identifier it handed out, and creating an object on a
    communicator takes the maximum over the members, plus one. Creations are listed in an order that agrees with
    each process's own; those on disjoint communicators may be listed either way (DisjointCreationsCommute). */
module RemoteIds {

  /** The members of the communicator an object is created on. */
  type Members = set<nat>

  /** MPI_Allreduce with MPI_MAX. */
  function MaxOver(clocks: seq<nat>, members: Members): nat {
    if clocks == [] then 0
    else
      var n := |clocks| - 1;
      var m := MaxOver(clocks[..n], members);
      if n in members && clocks[n] > m then clocks[n] else m
  }

  lemma {:induction false} MaxOverIsMax(clocks: seq<nat>, members: Members)
    ensures forall p :: 0 <= p < |clocks| && p in members ==> clocks[p] <= MaxOver(clocks, members)
    ensures MaxOver(clocks, members) == 0
         || exists p :: 0 <= p < |clocks| && p in members && clocks[p] == MaxOver(clocks, members)
  {
    if clocks != [] {
      var n := |clocks| - 1;
      MaxOverIsMax(clocks[..n], members);
      if MaxOver(clocks[..n], members) != 0 {
        var p :| 0 <= p < n && p in members && clocks[..n][p] == MaxOver(clocks[..n], members);
        assert clocks[p] == MaxOver(clocks[..n], members);
      }
      forall p | 0 <= p < |clocks| && p in members
        ensures clocks[p] <= MaxOver(clocks, members)
      {
        assert p < n ==> clocks[..n][p] == clocks[p];
      }
    }
  }

  /** Each member's last_unique becomes the new identifier. */
  function AfterCreation(clocks: seq<nat>, members: Members): seq<nat> {
    seq(|clocks|, p requires 0 <= p < |clocks| => if p in members then MaxOver(clocks, members) + 1 else clocks[p])
  }

  /** Every process's last_unique after some creations; it starts at zero. */
  function Clocks(size: nat, creations: seq<Members>): (clocks: seq<nat>)
    ensures |clocks| == size
  {
    if creations == [] then seq(size, _ => 0)
    else
      var n := |creations| - 1;
      AfterCreation(Clocks(size, creations[..n]), creations[n])
  }

  /** The identifier that the members of creation k compute. */
  function IdOf(size: nat, creations: seq<Members>, k: nat): nat
    requires k < |creations|
  {
    MaxOver(Clocks(size, creations[..k]), creations[k]) + 1
  }

  lemma NextCreation(size: nat, creations: seq<Members>, members: Members)
    ensures Clocks(size, creations + [members]) == AfterCreation(Clocks(size, creations), members)
    ensures IdOf(size, creations + [members], |creations|) == MaxOver(Clocks(size, creations), members) + 1
  {
    assert (creations + [members])[..|creations|] == creations;
  }

  /** A process's last_unique is the largest identifier of the creations it took part in. */
  lemma {:induction false} ClockIsLargestId(size: nat, creations: seq<Members>, n: nat, p: nat)
    requires n <= |creations| && p < size
    ensures forall j :: 0 <= j < n && p in creations[j] ==> IdOf(size, creations, j) <= Clocks(size, creations[..n])[p]
    ensures Clocks(size, creations[..n])[p] == 0
         || exists j :: 0 <= j < n && p in creations[j] && IdOf(size, creations, j) == Clocks(size, creations[..n])[p]
  {
    if n > 0 {
      ClockIsLargestId(size, creations, n - 1, p);
      assert creations[..n][..n - 1] == creations[..n - 1];
      MaxOverIsMax(Clocks(size, creations[..n - 1]), creations[n - 1]);
      assert p in creations[n - 1] ==> IdOf(size, creations, n - 1) == Clocks(size, creations[..n])[p];
    }
  }

  /** Creations that share a process get increasing identifiers; so those of one process strictly increase. */
  lemma SharedProcessOrders(size: nat, creations: seq<Members>, j: nat, k: nat, p: nat)
    requires j < k < |creations| && p < size && p in creations[j] && p in creations[k]
    ensures IdOf(size, creations, j) < IdOf(size, creations, k)
  {
    ClockIsLargestId(size, creations, k, p);
    MaxOverIsMax(Clocks(size, creations[..k]), creations[k]);
  }

  /** Creations in order, each sharing a process with the next. */
  ghost predicate IsChain(size: nat, creations: seq<Members>, chain: seq<nat>) {
    && (forall i :: 0 <= i < |chain| ==> chain[i] < |creations|)
    && (forall i :: 0 < i < |chain| ==> chain[i - 1] < chain[i])
    && (forall i :: 0 < i < |chain| ==> Linked(size, creations[chain[i - 1]], creations[chain[i]]))
  }

  ghost predicate Linked(size: nat, a: Members, b: Members) {
    exists p :: 0 <= p < size && p in a && p in b
  }

  lemma {:induction false} ChainBound(size: nat, creations: seq<Members>, chain: seq<nat>)
    requires IsChain(size, creations, chain) && chain != []
    ensures IdOf(size, creations, chain[0]) + |chain| - 1 <= IdOf(size, creations, chain[|chain| - 1])
    decreases |chain|
  {
    var n := |chain| - 1;
    if n > 0 {
      ChainBound(size, creations, chain[..n]);
      assert Linked(size, creations[chain[n - 1]], creations[chain[n]]);
      var p :| 0 <= p < size && p in creations[chain[n - 1]] && p in creations[chain[n]];
      SharedProcessOrders(size, creations, chain[n - 1], chain[n], p);
    }
  }

  lemma ChainExtends(size: nat, creations: seq<Members>, chain: seq<nat>, k: nat)
    requires IsChain(size, creations, chain) && chain != [] && chain[|chain| - 1] < k < |creations|
    requires Linked(size, creations[chain[|chain| - 1]], creations[k])
    ensures IsChain(size, creations, chain + [k])
  {
  }

  /** An identifier above 1 is one more than that of an earlier creation with a process in common. */
  lemma IdComesFrom(size: nat, creations: seq<Members>, k: nat) returns (j: nat)
    requires k < |creations| && IdOf(size, creations, k) != 1
    ensures j < k && Linked(size, creations[j], creations[k])
    ensures IdOf(size, creations, k) == IdOf(size, creations, j) + 1
  {
    var clocks := Clocks(size, creations[..k]);
    MaxOverIsMax(clocks, creations[k]);
    var p :| 0 <= p < |clocks| && p in creations[k] && clocks[p] == MaxOver(clocks, creations[k]);
    ClockIsLargestId(size, creations, k, p);
    j :| 0 <= j < k && p in creations[j] && IdOf(size, creations, j) == clocks[p];
  }

  lemma {:induction false} LongestChain(size: nat, creations: seq<Members>, k: nat) returns (chain: seq<nat>)
    requires k < |creations|
    ensures IsChain(size, creations, chain) && |chain| == IdOf(size, creations, k) && chain[|chain| - 1] == k
    decreases k
  {
    if IdOf(size, creations, k) == 1 {
      chain := [k];
    } else {
      var j := IdComesFrom(size, creations, k);
      var shorter := LongestChain(size, creations, j);
      ChainExtends(size, creations, shorter, k);
      chain := shorter + [k];
    }
  }

  /** The identifiers are a logical clock, and the least there can be: the identifier of a creation is exactly the
      length of the longest chain that leads to it. */
  lemma IdIsLongestChain(size: nat, creations: seq<Members>, k: nat, n: nat)
    requires k < |creations|
    ensures n == IdOf(size, creations, k) <==>
      && (exists chain :: IsChain(size, creations, chain) && |chain| == n && n > 0 && chain[n - 1] == k)
      && (forall chain :: IsChain(size, creations, chain) && chain != [] && chain[|chain| - 1] == k ==> |chain| <= n)
  {
    var longest := LongestChain(size, creations, k);
    forall chain | IsChain(size, creations, chain) && chain != [] && chain[|chain| - 1] == k
      ensures |chain| <= IdOf(size, creations, k)
    {
      ChainBound(size, creations, chain);
    }
  }

  /** Two creations on disjoint communicators: which comes first makes no difference, to the identifiers or to
      anything later. */
  lemma DisjointCreationsCommute(clocks: seq<nat>, a: Members, b: Members)
    requires a !! b
    ensures MaxOver(AfterCreation(clocks, a), b) == MaxOver(clocks, b)
    ensures AfterCreation(AfterCreation(clocks, a), b) == AfterCreation(AfterCreation(clocks, b), a)
  {
    MaxOverOutside(clocks, AfterCreation(clocks, a), b);
    MaxOverOutside(clocks, AfterCreation(clocks, b), a);
  }

  lemma {:induction false} MaxOverOutside(x: seq<nat>, y: seq<nat>, members: Members)
    requires |x| == |y| && forall p :: 0 <= p < |x| && p in members ==> x[p] == y[p]
    ensures MaxOver(x, members) == MaxOver(y, members)
  {
    if x != [] {
      MaxOverOutside(x[..|x| - 1], y[..|y| - 1], members);
    }
  }

  /** All identifiers of a history differ. */
  ghost predicate AllDiffer(size: nat, creations: seq<Members>) {
    forall j, k :: 0 <= j < k < |creations| ==> IdOf(size, creations, j) != IdOf(size, creations, k)
  }

  /** Every creation shares a process with the one listed before it. */
  ghost predicate LinkedThroughout(size: nat, creations: seq<Members>) {
    forall k :: 0 < k < |creations| ==> Linked(size, creations[k - 1], creations[k])
  }

  lemma {:induction false} LinkedIncrease(size: nat, creations: seq<Members>, j: nat, k: nat)
    requires LinkedThroughout(size, creations) && j < k < |creations|
    ensures IdOf(size, creations, j) < IdOf(size, creations, k)
  {
    assert Linked(size, creations[k - 1], creations[k]);
    var p :| 0 <= p < size && p in creations[k - 1] && p in creations[k];
    SharedProcessOrders(size, creations, k - 1, k, p);
    if j < k - 1 {
      LinkedIncrease(size, creations, j, k - 1);
    }
  }

  /** Where all differ they are 1, 2, 3, ..., and each creation had to learn of the one before. */
  lemma {:induction false} DifferingIds(size: nat, creations: seq<Members>, k: nat)
    requires AllDiffer(size, creations) && k < |creations|
    ensures forall j :: 0 <= j <= k ==> IdOf(size, creations, j) == j + 1
    ensures k > 0 ==> Linked(size, creations[k - 1], creations[k])
  {
    if k > 0 {
      DifferingIds(size, creations, k - 1);
      assert IdOf(size, creations, 0) == 1 && IdOf(size, creations, 0) != IdOf(size, creations, k);
    }
    if IdOf(size, creations, k) != 1 {
      var j := IdComesFrom(size, creations, k);
      var next := if j + 1 < k then j + 1 else j;
      assert IdOf(size, creations, next) != IdOf(size, creations, k);
    }
  }

  /** The identifiers that the code calls unique are all different if and only if every creation shares a process with
      the one listed before it. */
  lemma IdsUniqueIff(size: nat, creations: seq<Members>)
    ensures AllDiffer(size, creations) <==> LinkedThroughout(size, creations)
  {
    if AllDiffer(size, creations) {
      forall k | 0 < k < |creations|
        ensures Linked(size, creations[k - 1], creations[k])
      {
        DifferingIds(size, creations, k);
      }
    }
    if LinkedThroughout(size, creations) {
      forall j, k | 0 <= j < k < |creations|
        ensures IdOf(size, creations, j) != IdOf(size, creations, k)
      {
        LinkedIncrease(size, creations, j, k);
      }
    }
  }

  /** An input that fails: any two first creations on disjoint communicators. */
  lemma DisjointIdsCoincide(size: nat, a: Members, b: Members)
    requires a !! b
    ensures IdOf(size, [a, b], 0) == IdOf(size, [a, b], 1) == 1
  {
    assert [a, b][..0] == [] && [a, b][..1] == [a] && [a][..0] == [];
    var zero := Clocks(size, []);
    MaxOverIsMax(zero, a);
    MaxOverIsMax(zero, b);
    assert Clocks(size, [a]) == AfterCreation(zero, a);
    DisjointCreationsCommute(zero, a, b);
  }
}
