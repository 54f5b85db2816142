/** The running minimum that every search of the server keeps: strictly smaller replaces. */
module Nearest {
  import opened Wrappers

  /** Something found, with its distance or area. */
  datatype Scored<T> = Scored(score: real, item: T)

  type Best<T> = Option<Scored<T>>

  /** One comparison: a candidate wins if there is no winner yet or it is strictly smaller. */
  function Better<T>(best: Best<T>, candidate: Scored<T>): Best<T> {
    if best.None? || candidate.score < best.value.score then Some(candidate) else best
  }

  /** The winner after all candidates, starting from `best`. */
  function Run<T>(best: Best<T>, candidates: seq<Scored<T>>): Best<T> {
    if candidates == [] then best
    else Better(Run(best, candidates[..|candidates| - 1]), candidates[|candidates| - 1])
  }

  /** `w` is the first of the smallest candidates. */
  ghost predicate IsFirstSmallest<T>(candidates: seq<Scored<T>>, w: Scored<T>) {
    exists k :: 0 <= k < |candidates| && candidates[k] == w
      && (forall i :: 0 <= i < |candidates| ==> w.score <= candidates[i].score)
      && (forall i :: 0 <= i < k ==> w.score < candidates[i].score)
  }

  /** No candidate beats `best`. */
  ghost predicate NoneBeats<T>(best: Best<T>, candidates: seq<Scored<T>>) {
    forall i :: 0 <= i < |candidates| ==> best.Some? && best.value.score <= candidates[i].score
  }

  /** The running minimum from nothing is the first smallest candidate, if there is one at all. */
  lemma {:induction false} RunIsFirstSmallest<T>(candidates: seq<Scored<T>>)
    ensures Run(None, candidates) == None <==> candidates == []
    ensures Run(None, candidates).Some? ==> IsFirstSmallest(candidates, Run(None, candidates).value)
  {
    if candidates != [] {
      var n := |candidates| - 1;
      var front := candidates[..n];
      RunIsFirstSmallest(front);
      var before := Run(None, front);
      if before.Some? {
        var k :| 0 <= k < |front| && front[k] == before.value
          && (forall i :: 0 <= i < |front| ==> before.value.score <= front[i].score)
          && (forall i :: 0 <= i < k ==> before.value.score < front[i].score);
        assert candidates[k] == front[k];
        assert forall i :: 0 <= i < n ==> candidates[i] == front[i];
        if candidates[n].score < before.value.score {
          assert candidates[n] == Run(None, candidates).value;
        }
      } else {
        assert candidates[0] == Run(None, candidates).value;
      }
    }
  }

  lemma {:induction false} RunConcat<T>(best: Best<T>, a: seq<Scored<T>>, b: seq<Scored<T>>)
    ensures Run(best, a + b) == Run(Run(best, a), b)
  {
    if b == [] {
      assert a + b == a;
    } else {
      var front := b[..|b| - 1];
      assert (a + b)[..|a + b| - 1] == a + front;
      RunConcat(best, a, front);
    }
  }

  /** After a run its candidates are beaten, and what was beaten before stays beaten. */
  lemma {:induction false} RunBeats<T>(best: Best<T>, candidates: seq<Scored<T>>, others: seq<Scored<T>>)
    requires NoneBeats(best, others)
    ensures NoneBeats(Run(best, candidates), candidates)
    ensures NoneBeats(Run(best, candidates), others)
  {
    if candidates != [] {
      var front := candidates[..|candidates| - 1];
      RunBeats(best, front, others);
      assert forall i :: 0 <= i < |front| ==> front[i] == candidates[i];
    }
  }

  /** Beaten candidates change nothing. */
  lemma {:induction false} RunNoChange<T>(best: Best<T>, candidates: seq<Scored<T>>)
    requires NoneBeats(best, candidates)
    ensures Run(best, candidates) == best
  {
    if candidates != [] {
      var front := candidates[..|candidates| - 1];
      assert forall i :: 0 <= i < |front| ==> front[i] == candidates[i];
      RunNoChange(best, front);
    }
  }
}
