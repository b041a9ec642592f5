/** Blueprint questions, the order of their identifiers, and counts of questions by objective. */
module Questions {
  import opened Assessment

  datatype Question = Question(
    id: string,
    kind: string,
    text: string,
    difficulty: int,
    objectives: seq<string>,
    followups: seq<string>,
    expected: seq<ExpectedPoint>,
    excerpt: string)

  ghost predicate DistinctIds(questions: seq<Question>) {
    forall i, j :: 0 <= i < j < |questions| ==> questions[i].id != questions[j].id
  }

  // ----- string order -----

  /** Python's `<` on strings: lexicographic by code point. */
  predicate StrLess(a: string, b: string) {
    if b == [] then false
    else if a == [] then true
    else if a[0] != b[0] then a[0] < b[0]
    else StrLess(a[1..], b[1..])
  }

  lemma {:induction false} StrLessTotal(a: string, b: string)
    ensures a == b || StrLess(a, b) || StrLess(b, a)
    ensures !(StrLess(a, b) && StrLess(b, a))
    ensures a == b ==> !StrLess(a, b)
  {
    if a != [] && b != [] && a[0] == b[0] {
      StrLessTotal(a[1..], b[1..]);
      assert a == [a[0]] + a[1..] && b == [b[0]] + b[1..];
    }
  }

  lemma {:induction false} StrLessTransitive(a: string, b: string, c: string)
    requires StrLess(a, b) && StrLess(b, c)
    ensures StrLess(a, c)
  {
    if a != [] && a[0] == b[0] == c[0] {
      StrLessTransitive(a[1..], b[1..], c[1..]);
    }
  }

  // ----- counting -----

  /** Questions among the asked ones that serve `objective`. */
  function CountServing(questions: seq<Question>, asked: set<string>, objective: string): nat {
    if questions == [] then 0
    else
      var last := questions[|questions| - 1];
      CountServing(questions[..|questions| - 1], asked, objective)
      + if last.id in asked && objective in last.objectives then 1 else 0
  }

  /** All questions that serve `objective`. */
  function CountAll(questions: seq<Question>, objective: string): nat {
    CountServing(questions, set q | q in questions :: q.id, objective)
  }

  lemma {:induction false} CountSplit(a: seq<Question>, b: seq<Question>, asked: set<string>, objective: string)
    ensures CountServing(a + b, asked, objective) == CountServing(a, asked, objective) + CountServing(b, asked, objective)
  {
    if b == [] {
      assert a + b == a;
    } else {
      var n := |b| - 1;
      assert (a + b)[..|a + b| - 1] == a + b[..n];
      CountSplit(a, b[..n], asked, objective);
    }
  }

  function Serves(q: Question, asked: set<string>, objective: string): nat {
    if q.id in asked && objective in q.objectives then 1 else 0
  }

  lemma CountRemove(b: seq<Question>, k: nat, asked: set<string>, objective: string)
    requires k < |b|
    ensures CountServing(b, asked, objective) ==
            CountServing(b[..k] + b[k + 1..], asked, objective) + Serves(b[k], asked, objective)
  {
    CountSplit(b[..k], b[k + 1..], asked, objective);
    CountSplit(b[..k + 1], b[k + 1..], asked, objective);
    assert b == b[..k + 1] + b[k + 1..];
    assert b[..k + 1][..k] == b[..k];
  }

  /** Counts do not depend on the order of the questions. */
  lemma {:induction false} CountPermuted(a: seq<Question>, b: seq<Question>, asked: set<string>, objective: string)
    requires multiset(a) == multiset(b)
    ensures CountServing(a, asked, objective) == CountServing(b, asked, objective)
    decreases |a|
  {
    if a == [] {
      assert |b| == |multiset(b)| == 0;
    } else {
      var n := |a| - 1;
      var k := FindAndDrop(a, b);
      CountPermuted(a[..n], b[..k] + b[k + 1..], asked, objective);
      CountRemove(b, k, asked, objective);
    }
  }

  /** The last element of `a` has a place in its permutation `b`; the rest are permutations again. */
  lemma FindAndDrop<T>(a: seq<T>, b: seq<T>) returns (k: nat)
    requires a != [] && multiset(a) == multiset(b)
    ensures k < |b| && b[k] == a[|a| - 1]
    ensures multiset(a[..|a| - 1]) == multiset(b[..k] + b[k + 1..])
  {
    var n := |a| - 1;
    assert a[n] in multiset(a);
    k :| 0 <= k < |b| && b[k] == a[n];
    DropOne(a, n);
    DropOne(b, k);
    assert a[..n] + a[n + 1..] == a[..n];
  }

  lemma DropOne<T>(s: seq<T>, k: nat)
    requires k < |s|
    ensures multiset(s[..k] + s[k + 1..]) == multiset(s) - multiset{s[k]}
  {
    assert s == s[..k] + [s[k]] + s[k + 1..];
    assert multiset(s) == multiset(s[..k]) + multiset{s[k]} + multiset(s[k + 1..]);
  }

  /** Asking one more question raises the count of exactly the objectives it serves. */
  lemma {:induction false} CountGrows(questions: seq<Question>, asked: set<string>, q: Question, objective: string)
    requires DistinctIds(questions) && q.id !in asked
    requires forall p :: p in questions && p.id == q.id ==> p == q
    ensures CountServing(questions, asked + {q.id}, objective) ==
            CountServing(questions, asked, objective)
            + (if q in questions && objective in q.objectives then 1 else 0)
  {
    if questions != [] {
      var n := |questions| - 1;
      var last := questions[n];
      assert questions == questions[..n] + [last];
      assert DistinctIds(questions[..n]);
      forall p | p in questions[..n] && p.id == q.id ensures p == q {
        assert p in questions;
      }
      CountGrows(questions[..n], asked, q, objective);
      if last.id == q.id {
        assert last in questions;
        if q in questions[..n] {
          assert false;
        }
      }
    }
  }

  /** As long as the asked questions fall short of the count, an unasked one still serves the objective. */
  lemma {:induction false} ServingQuestionLeft(questions: seq<Question>, asked: set<string>, all: set<string>, objective: string)
    requires CountServing(questions, asked, objective) < CountServing(questions, all, objective)
    ensures exists q :: q in questions && q.id !in asked && objective in q.objectives
  {
    if questions != [] {
      var n := |questions| - 1;
      var last := questions[n];
      assert questions == questions[..n] + [last];
      if !(last.id !in asked && objective in last.objectives) {
        ServingQuestionLeft(questions[..n], asked, all, objective);
        var q :| q in questions[..n] && q.id !in asked && objective in q.objectives;
        assert q in questions;
      } else {
        assert last in questions;
      }
    }
  }
}
