/** What several modules need to say about sequences. */
module Sequences {

  ghost predicate Distinct<T>(s: seq<T>) {
    forall i, j :: 0 <= i < j < |s| ==> s[i] != s[j]
  }

  ghost function Elements<T>(s: seq<T>): set<T> {
    set x | x in s
  }

  /** The parts one after the other. */
  function Joined<T>(parts: seq<seq<T>>): seq<T> {
    if parts == [] then [] else Joined(parts[..|parts| - 1]) + parts[|parts| - 1]
  }

  lemma {:induction false} JoinedFront<T>(first: seq<T>, rest: seq<seq<T>>)
    ensures Joined([first] + rest) == first + Joined(rest)
  {
    var all := [first] + rest;
    if rest == [] {
      assert all[..0] == [];
    } else {
      var init, last := rest[..|rest| - 1], rest[|rest| - 1];
      assert all[..|all| - 1] == [first] + init && all[|all| - 1] == last;
      JoinedFront(first, init);
      assert first + Joined(init) + last == first + (Joined(init) + last);
    }
  }
}
