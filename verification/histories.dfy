// What a history says about a fact that some events make true and others end.

module Histories {

  datatype Mark = Makes | Ends | Neither

  /** Something made it true and nothing has ended it since. */
  ghost predicate Holds(marks: seq<Mark>) {
    exists i :: 0 <= i < |marks| && marks[i] == Makes && NotEndedSince(marks, i)
  }

  ghost predicate NotEndedSince(marks: seq<Mark>, i: nat) {
    forall k :: i < k < |marks| ==> marks[k] != Ends
  }

  lemma HoldsNext(marks: seq<Mark>, m: Mark)
    ensures Holds(marks + [m]) <==> m == Makes || (m != Ends && Holds(marks))
  {
    var n, all := |marks|, marks + [m];
    if m == Makes {
      assert all[n] == Makes && NotEndedSince(all, n);
    }
    if Holds(marks) && m != Ends {
      var i :| 0 <= i < n && marks[i] == Makes && NotEndedSince(marks, i);
      assert all[i] == Makes && NotEndedSince(all, i);
    }
    if Holds(all) {
      var i :| 0 <= i < |all| && all[i] == Makes && NotEndedSince(all, i);
      if i < n {
        assert all[n] != Ends;
        assert forall k :: i < k < n ==> all[k] == marks[k];
        assert marks[i] == Makes && NotEndedSince(marks, i);
      }
    }
  }
}
