/** Failure-compatible wrappers shared by every module of the model, and the
    Python exceptions that the modelled code raises. */
module Wrappers {

  datatype Option<+T> = None | Some(value: T)

  /** The exceptions of the original program that the model keeps as values. */
  datatype PyError =
    | FileNotFound    // a video that cannot be opened
    | ZeroDivision    // `%`, `//` or `/` with a zero right operand
    | IndexError      // a list indexed past its end
    | ValueError      // a bad argument: an empty `randint` range, a failed tuple unpacking, an oversized sample
    | RuntimeError    // raised explicitly by the dataset merger
    | EOFError        // `input()` after the keystrokes ran out
    | ImageError      // an image library call on a missing or empty image
    | TypeError       // `json.dump` of a value it cannot serialise
    | IsADirectory    // `shutil.copy2` with a directory as its source

  datatype Result<+T> = Ok(value: T) | Err(error: PyError) {
    predicate IsFailure() { Err? }
    function PropagateFailure<U>(): Result<U>
      requires Err?
    {
      Err(error)
    }
    function Extract(): T
      requires Ok?
    {
      value
    }
  }

  /** A loop that appends the value of each step and stops at the first
      exception: the values of all steps, or the first error. */
  function Collect<T>(rs: seq<Result<T>>): (r: Result<seq<T>>)
    ensures r.Ok? ==> |r.value| == |rs| && forall i :: 0 <= i < |rs| ==> rs[i] == Ok(r.value[i])
    ensures r.Err? <==> exists i :: 0 <= i < |rs| && rs[i].Err?
  {
    if rs == [] then Ok([])
    else
      var s :- Collect(rs[..|rs| - 1]);
      var x :- rs[|rs| - 1];
      Ok(s + [x])
  }

  /** Once a prefix has failed, the rest of the steps change nothing. */
  lemma {:induction false} CollectStopsAtError<T>(rs: seq<Result<T>>, k: nat)
    requires k <= |rs| && Collect(rs[..k]).Err?
    ensures Collect(rs) == Collect(rs[..k])
    decreases |rs|
  {
    if k == |rs| {
      assert rs[..k] == rs;
    } else {
      assert rs[..|rs| - 1][..k] == rs[..k];
      CollectStopsAtError(rs[..|rs| - 1], k);
    }
  }

  /** One more step after the steps so far. */
  lemma CollectStep<T>(rs: seq<Result<T>>, k: nat)
    requires k < |rs|
    ensures Collect(rs[..k + 1]) == (match Collect(rs[..k])
                                     case Err(e) => Err(e)
                                     case Ok(s) => if rs[k].Err? then Err(rs[k].error) else Ok(s + [rs[k].value]))
  {
    assert rs[..k + 1][..k] == rs[..k];
  }

  /** A successful step appends its value. */
  lemma CollectOk<T>(rs: seq<Result<T>>, k: nat, s: seq<T>, x: T)
    requires k < |rs| && Collect(rs[..k]) == Ok(s) && rs[k] == Ok(x)
    ensures Collect(rs[..k + 1]) == Ok(s + [x])
  {
    CollectStep(rs, k);
  }

  /** The first failing step decides the outcome of the whole loop. */
  lemma CollectErr<T>(rs: seq<Result<T>>, k: nat)
    requires k < |rs| && Collect(rs[..k]).Ok? && rs[k].Err?
    ensures Collect(rs) == Err(rs[k].error)
  {
    CollectStep(rs, k);
    CollectStopsAtError(rs, k + 1);
  }

  /** Step i of a loop that ran through produced the i-th value. */
  lemma CollectAt<T>(rs: seq<Result<T>>, s: seq<T>, i: nat)
    requires Collect(rs) == Ok(s) && i < |rs|
    ensures i < |s| && rs[i] == Ok(s[i])
  {
  }

  /** The concatenation of a sequence of sequences. */
  function Flatten<T>(ss: seq<seq<T>>): seq<T>
  {
    if ss == [] then [] else Flatten(ss[..|ss| - 1]) + ss[|ss| - 1]
  }
}
