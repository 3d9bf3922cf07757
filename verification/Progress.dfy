/** Loops over the keys of a map: what is still to do and what is done. */
module Progress {
  ghost predicate Split<T>(all: set<T>, todo: set<T>, done: set<T>) {
    todo + done == all && todo !! done
  }

  lemma SplitStart<T>(all: set<T>)
    ensures Split(all, all, {})
  {
  }

  lemma SplitNext<T>(all: set<T>, todo: set<T>, done: set<T>, x: T)
    requires Split(all, todo, done) && x in todo
    ensures Split(all, todo - {x}, done + {x}) && x in all && x !in done
    ensures |done + {x}| == |done| + 1
  {
  }

  // How many of `some` are done.
  lemma CountNext<T>(some: set<T>, done: set<T>, x: T)
    requires x !in done
    ensures |some * (done + {x})| == |some * done| + if x in some then 1 else 0
  {
    assert some * (done + {x}) == some * done + if x in some then {x} else {};
  }

  lemma CountAll<T>(some: set<T>, all: set<T>)
    requires some <= all
    ensures |some * all| == |some| && |some * {}| == 0
  {
    assert some * all == some && some * {} == {};
  }

  lemma SplitEnd<T>(all: set<T>, done: set<T>)
    requires Split(all, {}, done)
    ensures done == all
  {
  }
}
