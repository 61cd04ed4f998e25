/** The claim protocol of the source search's pumps and of `mapLimited`'s workers: workers take the next index from a common
    cursor, work on it across suspension points, and come back for another. */
module WorkerPool {
  import opened Sequences

  /** Who is responsible for an item. */
  datatype Owner = Unclaimed | ClaimedBy(worker: nat) | Settled

  /** The cursor, the workers' claims and the items' owners agree: an item is claimed by exactly one
      worker from the moment the cursor passes it until it is settled. */
  ghost predicate Ledger(next: nat, claims: seq<Option<nat>>, owner: seq<Owner>) {
    && (forall i :: 0 <= i < |owner| ==> (owner[i].Unclaimed? <==> next <= i))
    && (forall i :: 0 <= i < |owner| && owner[i].ClaimedBy? ==>
                      owner[i].worker < |claims| && claims[owner[i].worker] == Some(i))
    && (forall w :: 0 <= w < |claims| && claims[w].Some? ==>
                      claims[w].value < |owner| && owner[claims[w].value] == ClaimedBy(w))
  }

  /** A ghost record of the order in which items were settled. */
  ghost predicate Settles(order: seq<nat>, owner: seq<Owner>) {
    && NoDuplicates(order)
    && (forall k :: 0 <= k < |order| ==> order[k] < |owner|)
    && (forall i :: 0 <= i < |owner| ==> (owner[i].Settled? <==> i in order))
  }

  /** Before anything is claimed. */
  lemma NobodyYet(claims: seq<Option<nat>>, owner: seq<Owner>)
    requires forall w :: 0 <= w < |claims| ==> claims[w].None?
    requires forall i :: 0 <= i < |owner| ==> owner[i].Unclaimed?
    ensures Ledger(0, claims, owner) && Settles([], owner)
  {
  }

  /** An idle worker takes the next item. */
  lemma ClaimOne(next: nat, claims: seq<Option<nat>>, owner: seq<Owner>, order: seq<nat>, w: nat)
    requires Ledger(next, claims, owner) && Settles(order, owner)
    requires next < |owner| && w < |claims| && claims[w].None?
    ensures owner[next].Unclaimed? && Ledger(next + 1, claims[w := Some(next)], owner[next := ClaimedBy(w)])
    ensures Settles(order, owner[next := ClaimedBy(w)])
  {
  }

  /** A worker is done with its item. */
  lemma ReleaseOne(next: nat, claims: seq<Option<nat>>, owner: seq<Owner>, order: seq<nat>, w: nat)
    requires Ledger(next, claims, owner) && Settles(order, owner)
    requires w < |claims| && claims[w].Some?
    ensures claims[w].value < |owner| && !owner[claims[w].value].Settled?
    ensures Ledger(next, claims[w := None], owner[claims[w].value := Settled])
    ensures Settles(order + [claims[w].value], owner[claims[w].value := Settled])
  {
    SettleOne(order, owner, claims[w].value);
  }

  /** Once nobody holds a claim and the cursor is past the end, every item was settled exactly once. */
  lemma QuiescentPool(next: nat, claims: seq<Option<nat>>, owner: seq<Owner>, order: seq<nat>)
    requires Ledger(next, claims, owner) && Settles(order, owner)
    requires next >= |owner| && forall w :: 0 <= w < |claims| ==> claims[w].None?
    ensures Permutation(order, |owner|)
  {
    forall i | 0 <= i < |owner| ensures owner[i].Settled? {
      assert !owner[i].ClaimedBy?;
    }
  }

  lemma SettleOne(order: seq<nat>, owner: seq<Owner>, i: nat)
    requires Settles(order, owner) && i < |owner| && !owner[i].Settled?
    ensures Settles(order + [i], owner[i := Settled])
  {
    forall j | 0 <= j < |owner| ensures owner[i := Settled][j].Settled? <==> j in order + [i] {
      assert i !in order;
    }
  }
}
