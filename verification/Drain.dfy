// A list that is drained from the front while others keep adding to its end.
module Drain {

  function Concat<T>(xss: seq<seq<T>>): seq<T> { if xss == [] then [] else xss[0] + Concat(xss[1..]) }

  function From<T>(xs: seq<T>, k: nat): seq<T> { if k < |xs| then xs[k..] else [] }

  function Arriving<T>(added: seq<seq<T>>, k: nat): seq<T> { if k < |added| then added[k] else [] }

  // k laps into draining all: list is queued, and added from its k-th part on is still to come.
  ghost predicate Partway<T>(all: seq<T>, k: nat, list: seq<T>, added: seq<seq<T>>) {
    k <= |all| && list + Concat(From(added, k)) == all[k..]
  }

  // Items that arrive now join the end of the list, ahead of those that arrive later.
  lemma DrainOne<T>(all: seq<T>, k: nat, list: seq<T>, added: seq<seq<T>>)
    requires Partway(all, k, list, added) && list != []
    ensures k < |all| && list[0] == all[k] && Partway(all, k + 1, list[1..] + Arriving(added, k), added)
  {
    var more := Concat(From(added, k));
    assert list[0] == (list + more)[0] && (list + more)[1..] == list[1..] + more;
    if k < |added| {
      assert From(added, k) == [added[k]] + From(added, k + 1);
      assert list[1..] + added[k] + Concat(From(added, k + 1)) == list[1..] + (added[k] + Concat(From(added, k + 1)));
    }
  }

  lemma DrainDone<T>(all: seq<T>, k: nat, added: seq<seq<T>>)
    requires Partway(all, k, [], added)
    ensures |all[..k]| == k && all[..k] + Concat(From(added, k)) == all
  {
    assert [] + Concat(From(added, k)) == Concat(From(added, k));
  }

  lemma DrainStart<T>(list: seq<T>, added: seq<seq<T>>)
    ensures Partway(list + Concat(added), 0, list, added)
  {
    assert From(added, 0) == added;
  }
}
