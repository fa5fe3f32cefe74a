/** A batch of articles folded into a result under the strict or the lenient
    policy of `NYTArticleExtractor.process_multiple_articles`.  The loop does
    not look inside the records or the errors, so it is stated for any
    record type `R` and error type `E`. */
module ArticleBatches {
  import opened Wrappers

  /** One skipped article as the lenient policy logs it: its 1-based
      position in the input and the error it raised. */
  datatype Skip<E> = Skip(position: nat, error: E)

  /** What a lenient run produces: the records kept, the `errors` counter
      and the log of skips. */
  datatype Batch<R, E> = Batch(records: seq<R>, errors: nat, log: seq<Skip<E>>)

  /** One lenient step at the article with 0-based index `next`: a record
      is appended, a failure is counted and logged. */
  function Step<R, E>(acc: Batch<R, E>, outcome: Result<R, E>, next: nat): Batch<R, E>
  {
    match outcome
    case Success(record) => Batch(acc.records + [record], acc.errors, acc.log)
    case Failure(e) => Batch(acc.records, acc.errors + 1, acc.log + [Skip(next + 1, e)])
  }

  /** The loop from the article at 0-based index `next` on, with the
      results `acc` gathered so far; a failure under the strict policy ends
      it with that failure's error. */
  function FoldFrom<R, E>(acc: Batch<R, E>, outcomes: seq<Result<R, E>>, next: nat, strict: bool): (r: Result<Batch<R, E>, E>)
    ensures !strict ==> r.Success?
    ensures r.Success? ==> |r.value.records| + r.value.errors == |acc.records| + acc.errors + |outcomes|
    ensures r.Failure? ==> strict && exists k :: 0 <= k < |outcomes| && outcomes[k] == Failure(r.error)
    decreases |outcomes|
  {
    if outcomes == [] then Success(acc)
    else if strict && outcomes[0].Failure? then Failure(outcomes[0].error)
    else
      var r := FoldFrom(Step(acc, outcomes[0], next), outcomes[1..], next + 1, strict);
      assert r.Failure? ==> exists k :: 0 <= k < |outcomes| && outcomes[k] == Failure(r.error) by {
        if r.Failure? {
          var k :| 0 <= k < |outcomes[1..]| && outcomes[1..][k] == Failure(r.error);
          assert outcomes[k + 1] == outcomes[1..][k];
        }
      }
      r
  }

  /** The whole loop, from an empty result: the lenient policy always
      completes; a completed batch keeps or counts every article; an abort
      happens only under the strict policy and carries the error of one of
      the articles. */
  function Fold<R, E>(outcomes: seq<Result<R, E>>, strict: bool): (r: Result<Batch<R, E>, E>)
    ensures !strict ==> r.Success?
    ensures r.Success? ==> |r.value.records| + r.value.errors == |outcomes|
    ensures r.Failure? ==> strict && exists k :: 0 <= k < |outcomes| && outcomes[k] == Failure(r.error)
  {
    FoldFrom(Batch([], 0, []), outcomes, 0, strict)
  }

  /** The loop before its first step. */
  lemma FoldStart<R, E>(outcomes: seq<Result<R, E>>, strict: bool)
    ensures FoldFrom(Batch([], 0, []), outcomes[0..], 0, strict) == Fold(outcomes, strict)
  {
    assert outcomes[0..] == outcomes;
  }

  /** One step of the loop, at the article with 0-based index `i`. */
  lemma FoldStep<R, E>(acc: Batch<R, E>, outcomes: seq<Result<R, E>>, i: nat, strict: bool)
    requires i < |outcomes|
    ensures FoldFrom(acc, outcomes[i..], i, strict) ==
      if strict && outcomes[i].Failure? then Failure(outcomes[i].error)
      else FoldFrom(Step(acc, outcomes[i], i), outcomes[i + 1..], i + 1, strict)
  {
    assert outcomes[i..][0] == outcomes[i] && outcomes[i..][1..] == outcomes[i + 1..];
  }

  /** Running the loop over `xs + ys` is running it over `xs` and, unless
      that stopped on a failure, going on over `ys`. */
  lemma {:induction false} FoldFromAppend<R, E>(acc: Batch<R, E>, xs: seq<Result<R, E>>, ys: seq<Result<R, E>>, next: nat, strict: bool)
    ensures FoldFrom(acc, xs + ys, next, strict) ==
      match FoldFrom(acc, xs, next, strict)
      case Success(b) => FoldFrom(b, ys, next + |xs|, strict)
      case Failure(e) => Failure(e)
    decreases |xs|
  {
    if xs == [] {
      assert xs + ys == ys;
    } else {
      assert (xs + ys)[0] == xs[0] && (xs + ys)[1..] == xs[1..] + ys;
      if !(strict && xs[0].Failure?) {
        FoldFromAppend(Step(acc, xs[0], next), xs[1..], ys, next + 1, strict);
      }
    }
  }

  /** Once the strict loop has stopped within the first `n` outcomes, the
      later ones do not matter. */
  lemma StrictStays<R, E>(outcomes: seq<Result<R, E>>, n: nat, e: E)
    requires n <= |outcomes| && Fold(outcomes[..n], true) == Failure(e)
    ensures Fold(outcomes, true) == Failure(e)
  {
    FoldFromAppend(Batch([], 0, []), outcomes[..n], outcomes[n..], 0, true);
    assert outcomes[..n] + outcomes[n..] == outcomes;
  }

  /** The loop after its last step. */
  lemma FoldEnd<R, E>(acc: Batch<R, E>, outcomes: seq<Result<R, E>>, strict: bool)
    ensures FoldFrom(acc, outcomes[|outcomes|..], |outcomes|, strict) == Success(acc)
  {
    assert outcomes[|outcomes|..] == [];
  }

  /** Reference definition: the records of the successful outcomes, in order. */
  function Successes<R, E>(outcomes: seq<Result<R, E>>): (r: seq<R>)
    ensures |r| <= |outcomes|
  {
    if outcomes == [] then []
    else (if outcomes[0].Success? then [outcomes[0].value] else []) + Successes(outcomes[1..])
  }

  /** Reference definition: the failures with their 1-based positions,
      counting from `offset`. */
  function Skips<R, E>(outcomes: seq<Result<R, E>>, offset: nat): (r: seq<Skip<E>>)
    ensures |r| <= |outcomes|
  {
    if outcomes == [] then []
    else (if outcomes[0].Failure? then [Skip(offset + 1, outcomes[0].error)] else []) + Skips(outcomes[1..], offset + 1)
  }

  /** A kept record is the value of some successful outcome. */
  lemma {:induction false} InSuccesses<R, E>(outcomes: seq<Result<R, E>>, x: R)
    requires x in Successes(outcomes)
    ensures exists k :: 0 <= k < |outcomes| && outcomes[k] == Success(x)
  {
    var head: seq<R> := if outcomes[0].Success? then [outcomes[0].value] else [];
    assert Successes(outcomes) == head + Successes(outcomes[1..]);
    if x !in head {
      InSuccesses(outcomes[1..], x);
      var k :| 0 <= k < |outcomes[1..]| && outcomes[1..][k] == Success(x);
      assert outcomes[k + 1] == outcomes[1..][k];
    }
  }

  /** Every record the loop returns, under either policy, was gathered
      before it started or is the value of a successful outcome. */
  lemma {:induction false} FoldFromRecords<R, E>(acc: Batch<R, E>, outcomes: seq<Result<R, E>>, next: nat, strict: bool)
    requires FoldFrom(acc, outcomes, next, strict).Success?
    ensures forall x :: x in FoldFrom(acc, outcomes, next, strict).value.records ==>
      x in acc.records || exists k :: 0 <= k < |outcomes| && outcomes[k] == Success(x)
    decreases |outcomes|
  {
    if outcomes != [] {
      var step := Step(acc, outcomes[0], next);
      FoldFromRecords(step, outcomes[1..], next + 1, strict);
      forall x | x in FoldFrom(acc, outcomes, next, strict).value.records
        ensures x in acc.records || exists k :: 0 <= k < |outcomes| && outcomes[k] == Success(x)
      {
        if x in step.records {
          if x !in acc.records {
            assert outcomes[0] == Success(x);
          }
        } else {
          var k :| 0 <= k < |outcomes[1..]| && outcomes[1..][k] == Success(x);
          assert outcomes[k + 1] == outcomes[1..][k];
        }
      }
    }
  }

  /** Every record of a completed batch is the value of some successful
      outcome. */
  lemma FoldRecords<R, E>(outcomes: seq<Result<R, E>>, strict: bool)
    requires Fold(outcomes, strict).Success?
    ensures forall x :: x in Fold(outcomes, strict).value.records ==>
      exists k :: 0 <= k < |outcomes| && outcomes[k] == Success(x)
  {
    FoldFromRecords(Batch([], 0, []), outcomes, 0, strict);
  }

  /** Every outcome is either kept or skipped. */
  lemma {:induction false} SkipsCount<R, E>(outcomes: seq<Result<R, E>>, offset: nat)
    ensures |Successes(outcomes)| + |Skips(outcomes, offset)| == |outcomes|
  {
    if outcomes != [] {
      SkipsCount(outcomes[1..], offset + 1);
    }
  }

  /** `skips` name failed outcomes of `outcomes`, counting positions from
      `offset`. */
  ghost predicate SkipsAreFailures<R, E>(outcomes: seq<Result<R, E>>, offset: nat, skips: seq<Skip<E>>)
  {
    forall j :: 0 <= j < |skips| ==>
      offset < skips[j].position <= offset + |outcomes| &&
      outcomes[skips[j].position - offset - 1] == Failure(skips[j].error)
  }

  /** The positions of `skips` increase. */
  predicate Increasing<E>(skips: seq<Skip<E>>)
  {
    forall i, j :: 0 <= i < j < |skips| ==> skips[i].position < skips[j].position
  }

  /** Each skip names a failed outcome and its error. */
  lemma {:induction false} SkipsPositions<R, E>(outcomes: seq<Result<R, E>>, offset: nat)
    ensures SkipsAreFailures(outcomes, offset, Skips(outcomes, offset))
  {
    if outcomes != [] {
      var tail := outcomes[1..];
      SkipsPositions(tail, offset + 1);
      var rest := Skips(tail, offset + 1);
      var head: seq<Skip<E>> := if outcomes[0].Failure? then [Skip(offset + 1, outcomes[0].error)] else [];
      var s := Skips(outcomes, offset);
      assert s == head + rest;
      forall j | 0 <= j < |s|
        ensures offset < s[j].position <= offset + |outcomes| && outcomes[s[j].position - offset - 1] == Failure(s[j].error)
      {
        if j >= |head| {
          var sk := rest[j - |head|];
          assert s[j] == sk;
          assert offset + 1 < sk.position <= offset + 1 + |tail| && tail[sk.position - (offset + 1) - 1] == Failure(sk.error);
          assert outcomes[sk.position - offset - 1] == tail[sk.position - offset - 2];
        } else {
          assert s[j] == head[j];
        }
      }
    }
  }

  /** The skips are in input order. */
  lemma {:induction false} SkipsOrdered<R, E>(outcomes: seq<Result<R, E>>, offset: nat)
    ensures Increasing(Skips(outcomes, offset))
  {
    if outcomes != [] {
      var tail := outcomes[1..];
      SkipsOrdered(tail, offset + 1);
      SkipsPositions(tail, offset + 1);
      var rest := Skips(tail, offset + 1);
      var s := Skips(outcomes, offset);
      if outcomes[0].Failure? {
        assert s == [Skip(offset + 1, outcomes[0].error)] + rest;
        forall i, j | 0 <= i < j < |s| ensures s[i].position < s[j].position {
          assert s[j] == rest[j - 1];
          assert offset + 1 < rest[j - 1].position;
          if i > 0 {
            assert s[i] == rest[i - 1];
          }
        }
      } else {
        assert s == [] + rest;
      }
    }
  }

  /** With nothing failing, the records are the outcomes' values, in order. */
  lemma {:induction false} AllSucceed<R, E>(outcomes: seq<Result<R, E>>, offset: nat)
    requires forall k :: 0 <= k < |outcomes| ==> outcomes[k].Success?
    ensures |Successes(outcomes)| == |outcomes|
    ensures forall k :: 0 <= k < |outcomes| ==> Successes(outcomes)[k] == outcomes[k].value
    ensures Skips(outcomes, offset) == []
  {
    if outcomes != [] {
      assert forall k :: 0 <= k < |outcomes[1..]| ==> outcomes[1..][k] == outcomes[k + 1];
      AllSucceed(outcomes[1..], offset + 1);
    }
  }

  /** With everything failing, nothing is kept and every outcome is logged
      at its own position. */
  lemma {:induction false} AllFail<R, E>(outcomes: seq<Result<R, E>>, offset: nat)
    requires forall k :: 0 <= k < |outcomes| ==> outcomes[k].Failure?
    ensures Successes(outcomes) == []
    ensures Skips(outcomes, offset) == seq(|outcomes|, k requires 0 <= k < |outcomes| => Skip(offset + k + 1, outcomes[k].error))
  {
    if outcomes != [] {
      var tail := outcomes[1..];
      assert forall k :: 0 <= k < |tail| ==> tail[k] == outcomes[k + 1];
      AllFail(tail, offset + 1);
      var s := Skips(outcomes, offset);
      assert s == [Skip(offset + 1, outcomes[0].error)] + Skips(tail, offset + 1);
    }
  }

  /** The lenient loop from any point keeps the successes and logs the
      failures of what remains. */
  lemma {:induction false} LenientFrom<R, E>(acc: Batch<R, E>, outcomes: seq<Result<R, E>>, next: nat)
    ensures FoldFrom(acc, outcomes, next, false) ==
      Success(Batch(acc.records + Successes(outcomes), acc.errors + |Skips(outcomes, next)|, acc.log + Skips(outcomes, next)))
    decreases |outcomes|
  {
    if outcomes == [] {
      assert acc.records + [] == acc.records && acc.log + [] == acc.log;
    } else if outcomes[0].Success? {
      var record := outcomes[0].value;
      assert FoldFrom(acc, outcomes, next, false) == FoldFrom(acc.(records := acc.records + [record]), outcomes[1..], next + 1, false);
      LenientFrom(acc.(records := acc.records + [record]), outcomes[1..], next + 1);
      assert Successes(outcomes) == [record] + Successes(outcomes[1..]);
      assert acc.records + [record] + Successes(outcomes[1..]) == acc.records + Successes(outcomes);
      assert Skips(outcomes, next) == [] + Skips(outcomes[1..], next + 1) == Skips(outcomes[1..], next + 1);
    } else {
      var e := outcomes[0].error;
      var skip := Skip(next + 1, e);
      LenientFrom(Batch(acc.records, acc.errors + 1, acc.log + [skip]), outcomes[1..], next + 1);
      assert Successes(outcomes) == [] + Successes(outcomes[1..]) == Successes(outcomes[1..]);
      assert Skips(outcomes, next) == [skip] + Skips(outcomes[1..], next + 1);
      assert acc.log + [skip] + Skips(outcomes[1..], next + 1) == acc.log + Skips(outcomes, next);
    }
  }

  /** Lenient policy: the batch always completes; the records are the
      successful articles in input order, `errors` counts the others, and
      the log names each failed article and its error, in order. */
  lemma Lenient<R, E>(outcomes: seq<Result<R, E>>)
    ensures Fold(outcomes, false).Success?
    ensures var b := Fold(outcomes, false).value;
      b.records == Successes(outcomes) && b.log == Skips(outcomes, 0) &&
      b.errors == |b.log| && |b.records| + b.errors == |outcomes|
  {
    LenientFrom(Batch([], 0, []), outcomes, 0);
    SkipsCount(outcomes, 0);
  }

  /** Strict policy: the first failure, whatever its kind, aborts the
      batch with that error. */
  lemma StrictAbortsAtFirstFailure<R, E>(outcomes: seq<Result<R, E>>, k: nat)
    requires k < |outcomes| && outcomes[k].Failure?
    requires forall m :: 0 <= m < k ==> outcomes[m].Success?
    ensures Fold(outcomes, true) == Failure(outcomes[k].error)
  {
    StrictFrom(Batch([], 0, []), outcomes, 0, k);
  }

  lemma {:induction false} StrictFrom<R, E>(acc: Batch<R, E>, outcomes: seq<Result<R, E>>, next: nat, k: nat)
    requires k < |outcomes| && outcomes[k].Failure?
    requires forall m :: 0 <= m < k ==> outcomes[m].Success?
    ensures FoldFrom(acc, outcomes, next, true) == Failure(outcomes[k].error)
    decreases |outcomes|
  {
    if k > 0 {
      assert outcomes[0].Success?;
      assert forall m :: 0 <= m < k - 1 ==> outcomes[1..][m] == outcomes[m + 1];
      StrictFrom(acc.(records := acc.records + [outcomes[0].value]), outcomes[1..], next + 1, k - 1);
    }
  }

  /** Strict policy with nothing failing: every record, in order, no error. */
  lemma StrictAllSucceed<R, E>(outcomes: seq<Result<R, E>>)
    requires forall k :: 0 <= k < |outcomes| ==> outcomes[k].Success?
    ensures Fold(outcomes, true) == Success(Batch(Successes(outcomes), 0, []))
  {
    StrictSucceedFrom(Batch([], 0, []), outcomes, 0);
    assert [] + Successes(outcomes) == Successes(outcomes);
  }

  lemma {:induction false} StrictSucceedFrom<R, E>(acc: Batch<R, E>, outcomes: seq<Result<R, E>>, next: nat)
    requires forall k :: 0 <= k < |outcomes| ==> outcomes[k].Success?
    ensures FoldFrom(acc, outcomes, next, true) == Success(acc.(records := acc.records + Successes(outcomes)))
    decreases |outcomes|
  {
    if outcomes == [] {
      assert acc.records + [] == acc.records;
    } else {
      var record := outcomes[0].value;
      assert forall k :: 0 <= k < |outcomes[1..]| ==> outcomes[1..][k] == outcomes[k + 1];
      StrictSucceedFrom(acc.(records := acc.records + [record]), outcomes[1..], next + 1);
      assert Successes(outcomes) == [record] + Successes(outcomes[1..]);
      assert acc.records + [record] + Successes(outcomes[1..]) == acc.records + Successes(outcomes);
    }
  }

  /** Three articles whose second fails: the lenient policy keeps the first
      and third, in that order, and counts one error; the strict policy
      raises the second one's error. */
  lemma MiddleFailure<R, E>(r1: R, e: E, r3: R)
    ensures Fold([Success(r1), Failure(e), Success(r3)], false) == Success(Batch([r1, r3], 1, [Skip(2, e)]))
    ensures Fold([Success(r1), Failure(e), Success(r3)], true) == Failure(e)
  {
    var outcomes: seq<Result<R, E>> := [Success(r1), Failure(e), Success(r3)];
    Lenient(outcomes);
    StrictAbortsAtFirstFailure(outcomes, 1);
    var tail := outcomes[1..];
    assert tail == [Failure(e), Success(r3)];
    assert tail[1..] == [Success(r3)];
    assert tail[1..][1..] == [];
    assert Successes(tail[1..]) == [r3] + [] == [r3];
    assert Successes(tail) == [] + [r3] == [r3];
    assert Successes(outcomes) == [r1] + [r3] == [r1, r3];
    assert Skips(tail[1..], 2) == [] + [] == [];
    assert Skips(tail, 1) == [Skip(2, e)] + [] == [Skip(2, e)];
    assert Skips(outcomes, 0) == [] + [Skip(2, e)] == [Skip(2, e)];
  }

  /** An empty batch gives no records and no errors under either policy. */
  lemma EmptyBatch<R, E>(strict: bool)
    ensures Fold<R, E>([], strict) == Success(Batch([], 0, []))
  {
  }
}
