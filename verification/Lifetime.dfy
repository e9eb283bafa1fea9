/**
 The objects a queue constructs in its slots and destroys there.
 */
module Lifetime {
  import opened Wrappers

  // A slot's storage; each constructed object gets a serial number of its own.
  datatype Cell<T> = Dead | Live(serial: nat, value: T)

  function Stored<T>(c: Cell<T>): Option<T> {
    if c.Live? then Some(c.value) else None
  }

  ghost predicate Alive<T>(cells: seq<Cell<T>>, k: nat) {
    exists i :: 0 <= i < |cells| && cells[i].Live? && cells[i].serial == k
  }

  // Every object ever constructed is in exactly one slot, or has been destroyed exactly once.
  ghost predicate LifeInv<T>(cells: seq<Cell<T>>, made: nat, died: multiset<nat>) {
    && (forall i, j :: 0 <= i < j < |cells| && cells[i].Live? && cells[j].Live? ==>
                         cells[i].serial != cells[j].serial)
    && (forall i :: 0 <= i < |cells| && cells[i].Live? ==>
                      cells[i].serial < made && died[cells[i].serial] == 0)
    && (forall k: nat :: k < made ==> died[k] == (if Alive(cells, k) then 0 else 1))
    && (forall k: nat :: k >= made ==> died[k] == 0)
  }

  lemma BirthKeepsLife<T>(cells: seq<Cell<T>>, made: nat, died: multiset<nat>, i: nat, v: T)
    requires LifeInv(cells, made, died) && i < |cells| && cells[i].Dead?
    ensures LifeInv(cells[i := Live(made, v)], made + 1, died)
  {
    var cells' := cells[i := Live(made, v)];
    forall k: nat | k < made + 1 ensures died[k] == (if Alive(cells', k) then 0 else 1) {
      if k < made {
        if Alive(cells, k) {
          var j :| 0 <= j < |cells| && cells[j].Live? && cells[j].serial == k;
          assert cells'[j].Live? && cells'[j].serial == k;
        }
      } else {
        assert cells'[i].Live? && cells'[i].serial == k;
      }
    }
  }

  lemma DeathKeepsLife<T>(cells: seq<Cell<T>>, made: nat, died: multiset<nat>, i: nat)
    requires LifeInv(cells, made, died) && i < |cells| && cells[i].Live?
    ensures LifeInv(cells[i := Dead], made, died + multiset{cells[i].serial})
  {
    var cells' := cells[i := Dead];
    var died' := died + multiset{cells[i].serial};
    forall k: nat | k < made ensures died'[k] == (if Alive(cells', k) then 0 else 1) {
      if k == cells[i].serial {
        assert Alive(cells, k);
      } else if Alive(cells, k) {
        var j :| 0 <= j < |cells| && cells[j].Live? && cells[j].serial == k;
        assert cells'[j].Live? && cells'[j].serial == k;
      }
    }
  }

  // When nothing is stored any more, every object has been destroyed exactly once.
  lemma NothingLeft<T>(cells: seq<Cell<T>>, made: nat, died: multiset<nat>)
    requires LifeInv(cells, made, died)
    requires forall i :: 0 <= i < |cells| ==> cells[i] == Dead
    ensures forall k: nat :: died[k] == if k < made then 1 else 0
  {
    forall k: nat ensures died[k] == if k < made then 1 else 0 {
      assert !Alive(cells, k);
    }
  }
}
