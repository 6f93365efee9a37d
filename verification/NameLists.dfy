/**
 * Sorted lists of distinct names, in the order in which Go compares strings: what sort.Strings leaves of the keys of
 * a map. The zones of a ring (getZones in ring/util.go) and the dependencies of a module (DependenciesForModule in
 * modules/modules.go) are listed in this way, by inserting one name after the other in whatever order the map yields
 * them.
 */
module NameLists {
  import opened RingTypes

  predicate NamesAscend(s: seq<string>) {
    forall i, j :: 0 <= i < j < |s| ==> Less(s[i], s[j])
  }

  /** What sorting does with one more name. */
  function InsertName(x: string, s: seq<string>): seq<string> {
    if s == [] || Less(x, s[0]) then [x] + s else [s[0]] + InsertName(x, s[1..])
  }

  lemma {:induction false} InsertNameKeepsOrder(x: string, s: seq<string>)
    requires NamesAscend(s) && x !in s
    ensures NamesAscend(InsertName(x, s))
    ensures forall y :: y in InsertName(x, s) <==> y == x || y in s
  {
    if s != [] {
      LessIsTotal(x, s[0]);
      assert s == [s[0]] + s[1..];
      if Less(x, s[0]) {
        forall i | 0 <= i < |s| ensures Less(x, s[i]) {
          if i > 0 {
            LessIsTransitive(x, s[0], s[i]);
          }
        }
      } else {
        InsertNameKeepsOrder(x, s[1..]);
        var r := InsertName(x, s[1..]);
        forall i | 0 <= i < |r| ensures Less(s[0], r[i]) {
          assert r[i] in r;
          if r[i] != x {
            var p :| 0 <= p < |s[1..]| && s[1..][p] == r[i];
            assert s[p + 1] == r[i];
          }
        }
      }
    }
  }
}
