/** Running a sequence of steps that each yield some values or fail, stopping at the first failure. */
module Gathering {
  import opened Wrappers

  /** The values of rs[..n] concatenated in order, or the first failure among them. */
  function Gather<T, E>(rs: seq<Result<seq<T>, E>>, n: nat): Result<seq<T>, E>
    requires n <= |rs|
  {
    if n == 0 then Success([])
    else match Gather(rs, n - 1)
      case Failure(e) => Failure(e)
      case Success(vs) =>
        match rs[n - 1]
        case Failure(e) => Failure(e)
        case Success(more) => Success(vs + more)
  }

  /** Once a step has failed, later steps change nothing. */
  lemma {:induction false} GatherFailureSticks<T, E>(rs: seq<Result<seq<T>, E>>, n: nat, m: nat)
    requires n <= m <= |rs| && Gather(rs, n).Failure?
    ensures Gather(rs, m) == Gather(rs, n)
    decreases m
  {
    if n < m {
      GatherFailureSticks(rs, n, m - 1);
    }
  }

  /** A gathered failure is the failure of the first step that failed. */
  lemma {:induction false} GatherFailure<T, E>(rs: seq<Result<seq<T>, E>>, n: nat)
    requires n <= |rs| && Gather(rs, n).Failure?
    ensures exists i :: 0 <= i < n && rs[i] == Failure(Gather(rs, n).error)
                        && forall j :: 0 <= j < i ==> rs[j].Success?
  {
    if Gather(rs, n - 1).Failure? {
      GatherFailure(rs, n - 1);
    } else {
      GatherSuccess(rs, n - 1);
    }
  }

  /** A gathered success means every step succeeded. */
  lemma {:induction false} GatherSuccess<T, E>(rs: seq<Result<seq<T>, E>>, n: nat)
    requires n <= |rs| && Gather(rs, n).Success?
    ensures forall i :: 0 <= i < n ==> rs[i].Success?
  {
    if n > 0 {
      GatherSuccess(rs, n - 1);
    }
  }

  /** Every gathered value is a value of some step before n. */
  lemma {:induction false} GatherMember<T, E>(rs: seq<Result<seq<T>, E>>, n: nat, v: T)
    requires n <= |rs| && Gather(rs, n).Success? && v in Gather(rs, n).value
    ensures exists i :: 0 <= i < n && rs[i].Success? && v in rs[i].value
  {
    if v in Gather(rs, n - 1).value {
      GatherMember(rs, n - 1, v);
    } else {
      assert v in rs[n - 1].value;
    }
  }
}
