/** Exact cover as a problem about sets, and the step that the search takes: choosing a row and
    throwing out every column it fills and every row it clashes with. */
module ExactCover {

  /** Columns to fill, and the rows that may be chosen, each given by the set of columns it fills. */
  datatype Problem = Problem(cols: set<nat>, rows: set<set<nat>>)

  /** e is a choice of rows, no two sharing a column, that fills every column. */
  ghost predicate Solves(p: Problem, e: set<set<nat>>)
  {
    && e <= p.rows
    && (forall q, r | q in e && r in e && q != r :: q !! r)
    && (forall c | c in p.cols :: exists r :: r in e && c in r)
  }

  ghost predicate Solvable(p: Problem) { exists e :: Solves(p, e) }

  /** What is left of p once the columns r are filled. */
  ghost function Reduce(p: Problem, r: set<nat>): Problem
  {
    Problem(p.cols - r, set q | q in p.rows && q !! r)
  }

  lemma ReduceTwice(p: Problem, r: set<nat>, q: set<nat>)
    ensures Reduce(Reduce(p, r), q) == Reduce(p, r + q)
  {
    var a, b := Reduce(Reduce(p, r), q), Reduce(p, r + q);
    assert a.cols == b.cols;
    forall x ensures x in a.rows <==> x in b.rows {
    }
  }

  lemma ReduceNothing(p: Problem)
    ensures Reduce(p, {}) == p
  {
    assert Reduce(p, {}).rows == p.rows;
  }

  lemma SolveReduced(p: Problem, r: set<nat>, e: set<set<nat>>)
    requires r in p.rows && Solves(Reduce(p, r), e)
    ensures Solves(p, e + {r})
  {
    forall c | c in p.cols ensures exists q :: q in e + {r} && c in q {
      if c in r {
        assert r in e + {r};
      } else {
        assert c in Reduce(p, r).cols;
        var q :| q in e && c in q;
        assert q in e + {r};
      }
    }
  }

  lemma ReduceSolved(p: Problem, r: set<nat>, e: set<set<nat>>)
    requires Solves(p, e) && r in e
    ensures Solves(Reduce(p, r), e - {r})
  {
    forall c | c in p.cols - r ensures exists q :: q in e - {r} && c in q {
      var q :| q in e && c in q;
      assert q in e - {r};
    }
  }

  /** Branching on one column is complete: a problem with a column c left is solvable exactly if
      some row that fills c leaves a solvable problem. */
  lemma Branch(p: Problem, c: nat)
    requires c in p.cols
    ensures Solvable(p) <==> exists r :: r in p.rows && c in r && Solvable(Reduce(p, r))
  {
    if Solvable(p) {
      var e :| Solves(p, e);
      var r :| r in e && c in r;
      ReduceSolved(p, r, e);
    }
    if r :| r in p.rows && c in r && Solvable(Reduce(p, r)) {
      var e :| Solves(Reduce(p, r), e);
      SolveReduced(p, r, e);
    }
  }

  /** With no column left, choosing nothing solves the problem. */
  lemma NothingLeft(p: Problem)
    requires p.cols == {}
    ensures Solves(p, {})
  {
  }
}
