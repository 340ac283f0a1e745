/** The question records of one topic and the two pure updaters the topic
    page applies to its list: marking a question as revised (a map over the
    list) and removing a question (a filter over the list). */
module QuestionList {

  /** Question ids as the server hands them out. */
  type Id = int

  /** One question record as the topic page holds it. */
  datatype Question = Question(id: Id, questionText: string, answerText: string, revisionCount: int)

  /** The updater applied to a single record when `qid` is revised: the
      matching record gets one more revision, every other record is kept. */
  function ReviseOne(q: Question, qid: Id): (r: Question)
  {
    if q.id == qid then q.(revisionCount := q.revisionCount + 1) else q
  }

  /** The list after a successful revise of `qid`. */
  function Revise(qs: seq<Question>, qid: Id): (r: seq<Question>)
    ensures |r| == |qs|
  {
    if qs == [] then [] else [ReviseOne(qs[0], qid)] + Revise(qs[1..], qid)
  }

  /** The list after a successful delete of `qid`. */
  function Delete(qs: seq<Question>, qid: Id): (r: seq<Question>)
    ensures |r| <= |qs|
  {
    if qs == [] then []
    else (if qs[0].id == qid then [] else [qs[0]]) + Delete(qs[1..], qid)
  }

  /** How many records of `qs` carry the id `qid`. */
  function CountId(qs: seq<Question>, qid: Id): (n: nat)
  {
    if qs == [] then 0 else (if qs[0].id == qid then 1 else 0) + CountId(qs[1..], qid)
  }

  /** The sum of all revision counts in `qs`. */
  function TotalRevisions(qs: seq<Question>): (total: int)
  {
    if qs == [] then 0 else qs[0].revisionCount + TotalRevisions(qs[1..])
  }

  /** No record of `qs` has a negative revision count. */
  predicate CountsNonNegative(qs: seq<Question>)
  {
    forall i :: 0 <= i < |qs| ==> qs[i].revisionCount >= 0
  }

  /** No id occurs twice in `qs`. */
  predicate UniqueIds(qs: seq<Question>)
  {
    qs == [] || (CountId(qs[1..], qs[0].id) == 0 && UniqueIds(qs[1..]))
  }

  /** `a` is `b` with some records left out and the rest in the same order. */
  ghost predicate Subsequence(a: seq<Question>, b: seq<Question>)
  {
    if a == [] then true
    else if b == [] then false
    else (a[0] == b[0] && Subsequence(a[1..], b[1..])) || Subsequence(a, b[1..])
  }

  // ---------------------------------------------------------------------
  // Revise

  /** Position by position: a record with id `qid` gains exactly one
      revision and keeps its id and texts; any other record is unchanged. */
  lemma {:induction false} ReviseAt(qs: seq<Question>, qid: Id, i: nat)
    requires i < |qs|
    ensures qs[i].id == qid ==>
      Revise(qs, qid)[i] == qs[i].(revisionCount := qs[i].revisionCount + 1)
    ensures qs[i].id != qid ==> Revise(qs, qid)[i] == qs[i]
  {
    if i > 0 {
      ReviseAt(qs[1..], qid, i - 1);
    }
  }

  /** Revise keeps the ids, in order, and never lowers a revision count. */
  lemma {:induction false} ReviseKeepsIdsAndRaisesCounts(qs: seq<Question>, qid: Id)
    ensures forall i :: 0 <= i < |qs| ==> Revise(qs, qid)[i].id == qs[i].id
    ensures forall i :: 0 <= i < |qs| ==>
      Revise(qs, qid)[i].revisionCount >= qs[i].revisionCount
  {
    forall i | 0 <= i < |qs|
      ensures Revise(qs, qid)[i].id == qs[i].id
      ensures Revise(qs, qid)[i].revisionCount >= qs[i].revisionCount
    {
      ReviseAt(qs, qid, i);
    }
  }

  /** Counts that start non-negative stay non-negative. */
  lemma {:induction false} ReviseKeepsCountsNonNegative(qs: seq<Question>, qid: Id)
    requires CountsNonNegative(qs)
    ensures CountsNonNegative(Revise(qs, qid))
  {
    ReviseKeepsIdsAndRaisesCounts(qs, qid);
  }

  /** Revising an id that is not in the list changes nothing. */
  lemma {:induction false} ReviseAbsent(qs: seq<Question>, qid: Id)
    requires CountId(qs, qid) == 0
    ensures Revise(qs, qid) == qs
  {
    if qs != [] {
      ReviseAbsent(qs[1..], qid);
    }
  }

  /** The total number of revisions grows by exactly one per record with
      id `qid`. */
  lemma {:induction false} ReviseTotal(qs: seq<Question>, qid: Id)
    ensures TotalRevisions(Revise(qs, qid)) == TotalRevisions(qs) + CountId(qs, qid)
  {
    if qs != [] {
      ReviseTotal(qs[1..], qid);
      assert Revise(qs, qid)[1..] == Revise(qs[1..], qid);
    }
  }

  /** Revise keeps how often every id occurs. */
  lemma {:induction false} ReviseCountId(qs: seq<Question>, qid: Id, x: Id)
    ensures CountId(Revise(qs, qid), x) == CountId(qs, x)
  {
    if qs != [] {
      ReviseCountId(qs[1..], qid, x);
      assert Revise(qs, qid)[1..] == Revise(qs[1..], qid);
    }
  }

  /** Two successful revisions give the same list in either order. */
  lemma {:induction false} ReviseCommutes(qs: seq<Question>, a: Id, b: Id)
    ensures Revise(Revise(qs, a), b) == Revise(Revise(qs, b), a)
  {
    if qs != [] {
      ReviseCommutes(qs[1..], a, b);
      assert Revise(qs, a)[1..] == Revise(qs[1..], a);
      assert Revise(qs, b)[1..] == Revise(qs[1..], b);
    }
  }

  // ---------------------------------------------------------------------
  // Delete

  /** A record is in the result exactly when it was in the list and does
      not carry the deleted id. */
  lemma {:induction false} DeleteMembers(qs: seq<Question>, qid: Id, q: Question)
    ensures q in Delete(qs, qid) <==> q in qs && q.id != qid
  {
    if qs != [] {
      DeleteMembers(qs[1..], qid, q);
      assert q in qs <==> q == qs[0] || q in qs[1..];
      if qs[0].id == qid {
        assert Delete(qs, qid) == Delete(qs[1..], qid);
      } else {
        assert Delete(qs, qid) == [qs[0]] + Delete(qs[1..], qid);
      }
    }
  }

  /** After deleting `qid` no record with that id is left. */
  lemma {:induction false} DeleteRemovesId(qs: seq<Question>, qid: Id)
    ensures CountId(Delete(qs, qid), qid) == 0
  {
    if qs != [] {
      DeleteRemovesId(qs[1..], qid);
      if qs[0].id == qid {
        assert Delete(qs, qid) == Delete(qs[1..], qid);
      } else {
        assert Delete(qs, qid)[1..] == Delete(qs[1..], qid);
      }
    }
  }

  /** The result is shorter than the list by the number of records with
      id `qid`. */
  lemma {:induction false} DeleteLength(qs: seq<Question>, qid: Id)
    ensures |Delete(qs, qid)| == |qs| - CountId(qs, qid)
  {
    if qs != [] {
      DeleteLength(qs[1..], qid);
    }
  }

  /** The surviving records keep their relative order. */
  lemma {:induction false} DeleteIsSubsequence(qs: seq<Question>, qid: Id)
    ensures Subsequence(Delete(qs, qid), qs)
  {
    if qs != [] {
      DeleteIsSubsequence(qs[1..], qid);
      if qs[0].id == qid {
        assert Delete(qs, qid) == Delete(qs[1..], qid);
      } else {
        assert Delete(qs, qid)[1..] == Delete(qs[1..], qid);
      }
    }
  }

  /** A subsequence without `qid` can be no longer than the list without
      its `qid` records. */
  lemma {:induction false} SubsequenceLengthBound(r: seq<Question>, qs: seq<Question>, qid: Id)
    requires Subsequence(r, qs)
    requires forall j :: 0 <= j < |r| ==> r[j].id != qid
    ensures |r| <= |qs| - CountId(qs, qid)
  {
    if r == [] {
      DeleteLength(qs, qid);
    } else if r[0] == qs[0] && Subsequence(r[1..], qs[1..]) {
      SubsequenceLengthBound(r[1..], qs[1..], qid);
    } else {
      SubsequenceLengthBound(r, qs[1..], qid);
    }
  }

  /** Delete is the only order-keeping selection from the list that drops
      every record with id `qid` and keeps all the others. */
  lemma {:induction false} DeleteUnique(r: seq<Question>, qs: seq<Question>, qid: Id)
    requires Subsequence(r, qs)
    requires forall j :: 0 <= j < |r| ==> r[j].id != qid
    requires |r| == |qs| - CountId(qs, qid)
    ensures r == Delete(qs, qid)
  {
    if qs == [] {
    } else if qs[0].id == qid {
      assert r == [] || r[0] != qs[0];
      DeleteUnique(r, qs[1..], qid);
    } else {
      assert r != [] by { DeleteLength(qs[1..], qid); }
      if r[0] == qs[0] && Subsequence(r[1..], qs[1..]) {
        DeleteUnique(r[1..], qs[1..], qid);
      } else {
        SubsequenceLengthBound(r, qs[1..], qid);
        assert false;
      }
    }
  }

  /** Deleting the same id twice is the same as deleting it once. */
  lemma {:induction false} DeleteIdempotent(qs: seq<Question>, qid: Id)
    ensures Delete(Delete(qs, qid), qid) == Delete(qs, qid)
  {
    DeleteRemovesId(qs, qid);
    DeleteAbsent(Delete(qs, qid), qid);
  }

  /** Deleting an id that is not in the list changes nothing. */
  lemma {:induction false} DeleteAbsent(qs: seq<Question>, qid: Id)
    requires CountId(qs, qid) == 0
    ensures Delete(qs, qid) == qs
  {
    if qs != [] {
      DeleteAbsent(qs[1..], qid);
    }
  }

  /** Two successful deletes give the same list in either order. */
  lemma {:induction false} DeleteCommutes(qs: seq<Question>, a: Id, b: Id)
    ensures Delete(Delete(qs, a), b) == Delete(Delete(qs, b), a)
  {
    if qs != [] {
      DeleteCommutes(qs[1..], a, b);
      DeleteConcat(if qs[0].id == a then [] else [qs[0]], Delete(qs[1..], a), b);
      DeleteConcat(if qs[0].id == b then [] else [qs[0]], Delete(qs[1..], b), a);
    }
  }

  /** Delete works piecewise on a split list. */
  lemma {:induction false} DeleteConcat(xs: seq<Question>, ys: seq<Question>, qid: Id)
    ensures Delete(xs + ys, qid) == Delete(xs, qid) + Delete(ys, qid)
  {
    if xs != [] {
      DeleteConcat(xs[1..], ys, qid);
      assert (xs + ys)[1..] == xs[1..] + ys;
    } else {
      assert xs + ys == ys;
    }
  }

  /** Delete never lowers a count below zero: it only drops records. */
  lemma {:induction false} DeleteKeepsCountsNonNegative(qs: seq<Question>, qid: Id)
    requires CountsNonNegative(qs)
    ensures CountsNonNegative(Delete(qs, qid))
  {
    var r := Delete(qs, qid);
    forall i | 0 <= i < |r| ensures r[i].revisionCount >= 0 {
      DeleteMembers(qs, qid, r[i]);
    }
  }

  /** A successful revise and a successful delete give the same list in
      either order, also when they target the same id. */
  lemma {:induction false} ReviseDeleteCommute(qs: seq<Question>, a: Id, b: Id)
    ensures Delete(Revise(qs, a), b) == Revise(Delete(qs, b), a)
  {
    if qs != [] {
      ReviseDeleteCommute(qs[1..], a, b);
      assert Revise(qs, a)[1..] == Revise(qs[1..], a);
      if qs[0].id == b {
        assert Delete(qs, b) == Delete(qs[1..], b);
      } else {
        assert Delete(qs, b)[1..] == Delete(qs[1..], b);
      }
    }
  }

  // ---------------------------------------------------------------------
  // Unique ids

  /** In a list with unique ids every id occurs at most once. */
  lemma {:induction false} UniqueIdsAtMostOnce(qs: seq<Question>, x: Id)
    requires UniqueIds(qs)
    ensures CountId(qs, x) <= 1
  {
    if qs != [] {
      UniqueIdsAtMostOnce(qs[1..], x);
    }
  }

  /** Revise keeps ids unique. */
  lemma {:induction false} ReviseKeepsUniqueIds(qs: seq<Question>, qid: Id)
    requires UniqueIds(qs)
    ensures UniqueIds(Revise(qs, qid))
  {
    if qs != [] {
      ReviseKeepsUniqueIds(qs[1..], qid);
      ReviseCountId(qs[1..], qid, qs[0].id);
      assert Revise(qs, qid)[1..] == Revise(qs[1..], qid);
    }
  }

  /** Delete never makes an id occur more often. */
  lemma {:induction false} DeleteCountId(qs: seq<Question>, qid: Id, x: Id)
    ensures CountId(Delete(qs, qid), x) <= CountId(qs, x)
  {
    if qs != [] {
      DeleteCountId(qs[1..], qid, x);
      if qs[0].id == qid {
        assert Delete(qs, qid) == Delete(qs[1..], qid);
      } else {
        assert Delete(qs, qid)[1..] == Delete(qs[1..], qid);
      }
    }
  }

  /** Delete keeps ids unique. */
  lemma {:induction false} DeleteKeepsUniqueIds(qs: seq<Question>, qid: Id)
    requires UniqueIds(qs)
    ensures UniqueIds(Delete(qs, qid))
  {
    if qs != [] {
      DeleteKeepsUniqueIds(qs[1..], qid);
      if qs[0].id == qid {
        assert Delete(qs, qid) == Delete(qs[1..], qid);
      } else {
        DeleteCountId(qs[1..], qid, qs[0].id);
        assert Delete(qs, qid)[1..] == Delete(qs[1..], qid);
      }
    }
  }
}
