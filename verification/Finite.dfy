/** An optional value, and counting in finite collections. */
module Finite {

  datatype Option<T> = None | Some(value: T)

  lemma {:induction false} SubsetCount<T>(a: set<T>, b: set<T>)
    requires a <= b
    ensures |a| <= |b| && (|a| == |b| ==> a == b)
  {
    if a != {} {
      var x :| x in a;
      SubsetCount(a - {x}, b - {x});
    }
  }

  lemma Uncovered<T>(taken: set<T>, room: set<T>) returns (x: T)
    requires |taken| < |room|
    ensures x in room && x !in taken
  {
    if forall y | y in room :: y in taken {
      SubsetCount(room, taken);
    }
    x :| x in room && x !in taken;
  }

  /** Distinct elements fit only where there is room for each. */
  lemma {:induction false} DistinctFit<T>(s: seq<T>, room: set<T>)
    requires forall i | 0 <= i < |s| :: s[i] in room
    requires forall i, j | 0 <= i < j < |s| :: s[i] != s[j]
    ensures |s| <= |room|
  {
    if s != [] {
      DistinctFit(s[1..], room - {s[0]});
    }
  }
}
