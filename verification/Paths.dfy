/** Paths of a state machine given by its step relation. */
module Paths {

  ghost predicate IsPath<S(!new)>(next: (S, S) -> bool, path: seq<S>) {
    |path| > 0 && forall i :: 0 <= i < |path| - 1 ==> next(path[i], path[i+1])
  }

  ghost predicate Reaches<S(!new)>(next: (S, S) -> bool, s: S, s': S) {
    exists path: seq<S> :: IsPath(next, path) && path[0] == s && path[|path|-1] == s'
  }

  lemma StepOf<S(!new)>(next: (S, S) -> bool, path: seq<S>, i: nat)
    requires IsPath(next, path) && 0 < i < |path|
    ensures next(path[i-1], path[i])
  {
    var k := i - 1;
    assert next(path[k], path[k+1]);
  }

  lemma Extend<S(!new)>(next: (S, S) -> bool, path: seq<S>, s: S) returns (path': seq<S>)
    requires IsPath(next, path) && next(path[|path|-1], s)
    ensures IsPath(next, path') && path'[0] == path[0] && path' == path + [s]
  {
    path' := path + [s];
    forall i | 0 <= i < |path'| - 1 ensures next(path'[i], path'[i+1]) {
      if i < |path| - 1 { assert next(path[i], path[i+1]); } else { assert path'[i] == path[|path|-1]; }
    }
  }

  lemma ReachesSelf<S(!new)>(next: (S, S) -> bool, s: S)
    ensures Reaches(next, s, s)
  {
    assert IsPath(next, [s]);
  }

  lemma ReachesStep<S(!new)>(next: (S, S) -> bool, s: S, m: S, m': S)
    requires Reaches(next, s, m) && next(m, m')
    ensures Reaches(next, s, m')
  {
    var path :| IsPath(next, path) && path[0] == s && path[|path|-1] == m;
    var path' := Extend(next, path, m');
  }

  /** What a step keeps, a path keeps. */
  lemma {:induction false} Always<S(!new)>(next: (S, S) -> bool, inv: S -> bool, path: seq<S>, i: nat)
    requires IsPath(next, path) && inv(path[0]) && i < |path|
    requires forall s, s' :: inv(s) && next(s, s') ==> inv(s')
    ensures inv(path[i])
  {
    if i > 0 {
      Always(next, inv, path, i - 1);
      StepOf(next, path, i);
    }
  }
}
