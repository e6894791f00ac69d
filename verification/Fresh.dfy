/** Names and numbers that are not in use yet. */
module Fresh {

  lemma {:induction false} Above(ids: set<nat>) returns (c: nat)
    ensures forall i | i in ids :: i < c
    decreases |ids|
  {
    if ids == {} { return 0; }
    var i :| i in ids;
    var rest := Above(ids - {i});
    c := if i < rest then rest else i + 1;
    assert forall j | j in ids :: j == i || j in ids - {i};
  }

  lemma {:induction false} LongerThanAll(names: set<string>) returns (name: string)
    ensures name != "" && forall n | n in names :: |n| < |name|
    decreases |names|
  {
    if names == {} { return "x"; }
    var n :| n in names;
    var rest := LongerThanAll(names - {n});
    name := if |n| < |rest| then rest else n + "x";
    assert forall m | m in names :: m == n || m in names - {n};
  }
}
