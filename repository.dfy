/**
 * The spot store's queries, as functions over the stored rows in store
 * order. Neither derived query orders its result; store order is taken
 * to be ascending id, and both queries keep it.
 */
module SpotRepository {
  import opened Wrappers
  import opened Model

  /** Store order: ids strictly ascend, so no id is stored twice. */
  predicate AscendingIds(spots: seq<Spot>) {
    forall i, j :: 0 <= i < j < |spots| ==> spots[i].id < spots[j].id
  }

  /** `findByOccupiedFalse`: the unoccupied spots, in store order. */
  function FindByOccupiedFalse(spots: seq<Spot>): (r: seq<Spot>)
    ensures |r| <= |spots|
    ensures forall i :: 0 <= i < |r| ==> r[i] in spots && !r[i].occupied
  {
    if spots == [] then []
    else if spots[0].occupied then FindByOccupiedFalse(spots[1..])
    else [spots[0]] + FindByOccupiedFalse(spots[1..])
  }

  /** `findByOccupiedTrue`: the occupied spots, in store order. */
  function FindByOccupiedTrue(spots: seq<Spot>): (r: seq<Spot>)
    ensures |r| <= |spots|
    ensures forall i :: 0 <= i < |r| ==> r[i] in spots && r[i].occupied
  {
    if spots == [] then []
    else if spots[0].occupied then [spots[0]] + FindByOccupiedTrue(spots[1..])
    else FindByOccupiedTrue(spots[1..])
  }

  /**
   * `save` of a spot that is already stored: the row with the spot's id
   * takes the new values and every other row is left as it was.
   */
  function Update(spots: seq<Spot>, s: Spot): (r: seq<Spot>)
    ensures |r| == |spots|
    ensures forall i :: 0 <= i < |spots| && spots[i].id == s.id ==> r[i] == s
    ensures forall i :: 0 <= i < |spots| && spots[i].id != s.id ==> r[i] == spots[i]
  {
    seq(|spots|, i requires 0 <= i < |spots| => if spots[i].id == s.id then s else spots[i])
  }

  /** Each query returns every stored spot that matches it. */
  lemma {:induction false} QueriesFindEveryMatch(spots: seq<Spot>)
    ensures forall i :: 0 <= i < |spots| && !spots[i].occupied ==> spots[i] in FindByOccupiedFalse(spots)
    ensures forall i :: 0 <= i < |spots| && spots[i].occupied ==> spots[i] in FindByOccupiedTrue(spots)
  {
    if spots != [] {
      QueriesFindEveryMatch(spots[1..]);
      forall i | 0 < i < |spots|
        ensures spots[i] == spots[1..][i - 1]
      {
      }
    }
  }

  /** `findByOccupiedFalse` keeps store order: its result again has ascending ids. */
  lemma {:induction false} FreeQueryKeepsStoreOrder(spots: seq<Spot>)
    requires AscendingIds(spots)
    ensures AscendingIds(FindByOccupiedFalse(spots))
  {
    if spots != [] {
      var rest := spots[1..];
      FreeQueryKeepsStoreOrder(rest);
      if !spots[0].occupied {
        FirstIdBelowRest(spots, FindByOccupiedFalse(rest));
      }
    }
  }

  /** `findByOccupiedTrue` keeps store order: its result again has ascending ids. */
  lemma {:induction false} OccupiedQueryKeepsStoreOrder(spots: seq<Spot>)
    requires AscendingIds(spots)
    ensures AscendingIds(FindByOccupiedTrue(spots))
  {
    if spots != [] {
      var rest := spots[1..];
      OccupiedQueryKeepsStoreOrder(rest);
      if spots[0].occupied {
        FirstIdBelowRest(spots, FindByOccupiedTrue(rest));
      }
    }
  }

  /** Putting the first stored spot before an ascending selection of the later ones stays ascending. */
  lemma FirstIdBelowRest(spots: seq<Spot>, picked: seq<Spot>)
    requires AscendingIds(spots) && spots != []
    requires AscendingIds(picked)
    requires forall i :: 0 <= i < |picked| ==> picked[i] in spots[1..]
    ensures AscendingIds([spots[0]] + picked)
  {
  }

  /** Every stored spot is found by exactly one of the two queries. */
  lemma {:induction false} OccupancyPartition(spots: seq<Spot>)
    ensures |FindByOccupiedTrue(spots)| + |FindByOccupiedFalse(spots)| == |spots|
  {
    if spots != [] {
      OccupancyPartition(spots[1..]);
    }
  }

  /** Overwriting one row moves the occupied count by the change of that row's flag. */
  lemma {:induction false} OccupiedCountAfterSet(spots: seq<Spot>, k: nat, s: Spot)
    requires k < |spots|
    ensures |FindByOccupiedTrue(spots[k := s])| ==
            |FindByOccupiedTrue(spots)| - (if spots[k].occupied then 1 else 0) + (if s.occupied then 1 else 0)
  {
    if k == 0 {
      assert spots[k := s][1..] == spots[1..];
    } else {
      assert spots[k := s][1..] == spots[1..][k - 1 := s];
      OccupiedCountAfterSet(spots[1..], k - 1, s);
    }
  }

  /** With unique ids, saving a stored spot rewrites exactly its own row. */
  lemma UpdateAt(spots: seq<Spot>, k: nat, s: Spot)
    requires AscendingIds(spots)
    requires k < |spots| && spots[k].id == s.id
    ensures Update(spots, s) == spots[k := s]
  {
  }

  /** Saving the same row twice keeps only the second write. */
  lemma UpdateTwice(spots: seq<Spot>, a: Spot, b: Spot)
    requires a.id == b.id
    ensures Update(Update(spots, a), b) == Update(spots, b)
  {
  }
}
