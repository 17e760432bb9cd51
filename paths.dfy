/** Image references: an image is identified by its file path string. */
module Paths {

  type Path = string

  /** No path occurs twice in `s`. */
  ghost predicate Distinct(s: seq<Path>)
  {
    forall i, j :: 0 <= i < j < |s| ==> s[i] != s[j]
  }

  /** The set of paths occurring in `s`. */
  ghost function Elements(s: seq<Path>): set<Path>
  {
    set i | 0 <= i < |s| :: s[i]
  }

  /** A duplicate-free sequence has exactly as many elements as its set. */
  lemma {:induction false} DistinctCardinality(s: seq<Path>)
    requires Distinct(s)
    ensures |Elements(s)| == |s|
  {
    if s != [] {
      var init := s[..|s| - 1];
      assert Distinct(init) by {
        forall i, j | 0 <= i < j < |init| ensures init[i] != init[j] {
          assert init[i] == s[i] && init[j] == s[j];
        }
      }
      DistinctCardinality(init);
      var last := s[|s| - 1];
      assert Elements(s) == Elements(init) + {last} by {
        forall x | x in Elements(s) ensures x in Elements(init) + {last} {
          var i :| 0 <= i < |s| && s[i] == x;
          if i < |s| - 1 { assert init[i] == x; }
        }
        forall x | x in Elements(init) ensures x in Elements(s) {
          var i :| 0 <= i < |init| && init[i] == x;
          assert s[i] == x;
        }
        assert s[|s| - 1] == last;
      }
      assert last !in Elements(init) by {
        forall i | 0 <= i < |init| ensures init[i] != last {
          assert init[i] == s[i];
        }
      }
    }
  }

  /** Appending a path not yet present keeps the sequence duplicate-free and adds it to the set. */
  lemma AppendNew(s: seq<Path>, p: Path)
    requires Distinct(s) && p !in Elements(s)
    ensures Distinct(s + [p])
    ensures Elements(s + [p]) == Elements(s) + {p}
  {
    var t := s + [p];
    assert t[|s|] == p;
    forall x | x in Elements(s) ensures x in Elements(t) {
      var k :| 0 <= k < |s| && s[k] == x;
      assert t[k] == x;
    }
    forall i, j | 0 <= i < j < |t| ensures t[i] != t[j] {
      assert t[i] == s[i];
      if j < |s| {
        assert t[j] == s[j];
      } else {
        assert s[i] in Elements(s);
      }
    }
  }
}
