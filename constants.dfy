/** The fixed verb vocabulary (src/constants.rs) and ASCII lower-casing. */
module Constants {
  import opened Seqs

  const GET := "Get"
  const LIST := "List"
  const WATCH := "Watch"
  const CREATE := "Create"
  const DELETE := "Delete"
  const UPDATE := "Update"
  const PATCH := "Patch"
  const DELETECOLLECTION := "DeleteCollection"

  /** Fixes the column order of every report. */
  const ALL_VERBS: seq<string> := [GET, LIST, WATCH, CREATE, DELETE, UPDATE, PATCH, DELETECOLLECTION]

  const DEFAULT_VERBS: seq<string> := [GET, CREATE, DELETE, UPDATE]

  /** `char::to_ascii_lowercase`. */
  function LowerChar(c: char): (d: char)
    ensures 'A' <= c <= 'Z' ==> 'a' <= d <= 'z' && d as int == c as int + 32
    ensures !('A' <= c <= 'Z') ==> d == c
  {
    if 'A' <= c <= 'Z' then (c as int + 32) as char else c
  }

  /** `str::to_ascii_lowercase`. */
  function Lower(s: string): (r: string)
    ensures |r| == |s|
    ensures forall i :: 0 <= i < |s| ==> r[i] == LowerChar(s[i])
  {
    seq(|s|, i requires 0 <= i < |s| => LowerChar(s[i]))
  }

  lemma AllVerbsOrder()
    ensures |ALL_VERBS| == 8
    ensures ALL_VERBS == ["Get", "List", "Watch", "Create", "Delete", "Update", "Patch", "DeleteCollection"]
  {
  }

  /** The lower-cased names, as the cluster advertises them in `verbs`. */
  lemma LowerAllVerbs()
    ensures seq(|ALL_VERBS|, i requires 0 <= i < |ALL_VERBS| => Lower(ALL_VERBS[i]))
         == ["get", "list", "watch", "create", "delete", "update", "patch", "deletecollection"]
    ensures Lower(GET) == "get" && Lower(LIST) == "list" && Lower(WATCH) == "watch"
    ensures Lower(CREATE) == "create" && Lower(DELETE) == "delete" && Lower(UPDATE) == "update"
    ensures Lower(PATCH) == "patch" && Lower(DELETECOLLECTION) == "deletecollection"
  {
    assert Lower(GET) == "get";
    assert Lower(LIST) == "list";
    assert Lower(WATCH) == "watch";
    assert Lower(CREATE) == "create";
    assert Lower(DELETE) == "delete";
    assert Lower(UPDATE) == "update";
    assert Lower(PATCH) == "patch";
    assert Lower(DELETECOLLECTION) == "deletecollection";
  }

  /** The entries stay pairwise distinct after lower-casing, hence also before. */
  lemma {:induction false} AllVerbsDistinct()
    ensures forall i, j :: 0 <= i < j < |ALL_VERBS| ==> Lower(ALL_VERBS[i]) != Lower(ALL_VERBS[j])
    ensures forall i, j :: 0 <= i < j < |ALL_VERBS| ==> ALL_VERBS[i] != ALL_VERBS[j]
  {
    LowerAllVerbs();
    var lowered := seq(|ALL_VERBS|, i requires 0 <= i < |ALL_VERBS| => Lower(ALL_VERBS[i]));
    forall i, j | 0 <= i < j < |ALL_VERBS|
      ensures Lower(ALL_VERBS[i]) != Lower(ALL_VERBS[j])
    {
      assert lowered[i] != lowered[j];
    }
  }

  /** Lower-casing identifies a verb of the vocabulary. */
  lemma LowerInjectiveOnVerbs()
    ensures forall k1, k2 :: k1 in ALL_VERBS && k2 in ALL_VERBS && Lower(k1) == Lower(k2) ==> k1 == k2
  {
    AllVerbsDistinct();
    forall k1, k2 | k1 in ALL_VERBS && k2 in ALL_VERBS && Lower(k1) == Lower(k2)
      ensures k1 == k2
    {
      var i :| 0 <= i < |ALL_VERBS| && ALL_VERBS[i] == k1;
      var j :| 0 <= j < |ALL_VERBS| && ALL_VERBS[j] == k2;
      assert !(i < j) && !(j < i);
    }
  }

  /** DEFAULT_VERBS keeps the relative order of ALL_VERBS. */
  lemma {:induction false} DefaultVerbsAreOrderedSubset()
    ensures Subseq(DEFAULT_VERBS, ALL_VERBS)
    ensures forall v :: v in DEFAULT_VERBS ==> v in ALL_VERBS
  {
    var d := DEFAULT_VERBS;
    var a := ALL_VERBS;
    assert Subseq(d[4..], a[8..]);
    assert Subseq(d[3..], a[5..]) by { assert d[3] == a[5]; assert d[3..][1..] == d[4..]; assert a[5..][1..] == a[6..]; assert Subseq(d[4..], a[7..]); assert Subseq(d[4..], a[6..]); }
    assert Subseq(d[2..], a[4..]) by { assert d[2] == a[4]; assert d[2..][1..] == d[3..]; assert a[4..][1..] == a[5..]; }
    assert Subseq(d[1..], a[3..]) by { assert d[1] == a[3]; assert d[1..][1..] == d[2..]; assert a[3..][1..] == a[4..]; }
    assert Subseq(d[1..], a[1..]) by {
      assert d[1] != a[1] && d[1] != a[2];
      assert a[2..][1..] == a[3..]; assert a[1..][1..] == a[2..];
      assert Subseq(d[1..], a[2..]);
    }
    assert d[0] == a[0];
    SubseqMembers(d, a);
  }
}
