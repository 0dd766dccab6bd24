/** Failure-compatible outcomes shared by every module of the model.

    The scripts signal failure by raising Python exceptions; each operation
    that can raise returns a `Result` whose `Err` carries the exception the
    script would have raised. */
module Results {

  /** The exceptions the modelled code raises or lets escape. */
  datatype Error =
    | IOError(path: string)       // a data file that could not be read
    | InvalidData                 // `data` is neither a table nor a path
    | KeyError(name: string)      // a column name the table does not have
    | IndexError                  // a list or array index out of bounds
    | TypeError                   // arithmetic on a column of strings
    | AttributeError              // RA/DEC read from a catalog that never set them
    | ValueError(message: string)
    | ParseError                  // a sexagesimal row the coordinate parser rejects
    | DuplicateColumn(name: string) // atpy refusing to add a column under a name the table has

  datatype Result<+T> = Ok(value: T) | Err(error: Error)
  {
    predicate IsFailure() { Err? }

    function PropagateFailure<U>(): Result<U>
      requires Err?
    {
      Err(error)
    }

    function Extract(): T
      requires Ok?
    {
      value
    }
  }

  datatype Option<+T> = None | Some(value: T)

  /** A loop that applies `f` to each element in turn and stops at the
      first one that raises. */
  function MapResult<A, B>(f: A -> Result<B>, xs: seq<A>): (r: Result<seq<B>>)
    ensures r.Ok? <==> forall k :: 0 <= k < |xs| ==> f(xs[k]).Ok?
    ensures r.Err? ==> exists k :: 0 <= k < |xs| && f(xs[k]).Err? && r.error == f(xs[k]).error
                         && forall k' :: 0 <= k' < k ==> f(xs[k']).Ok?
    ensures r.Ok? ==> |r.value| == |xs| && forall k :: 0 <= k < |xs| ==> r.value[k] == f(xs[k]).value
  {
    if |xs| == 0 then Ok([])
    else
      var one :- f(xs[0]);
      var rest := MapResult(f, xs[1..]);
      if rest.Err? then
        var k :| 0 <= k < |xs[1..]| && f(xs[1..][k]).Err? && rest.error == f(xs[1..][k]).error
                 && forall k' :: 0 <= k' < k ==> f(xs[1..][k']).Ok?;
        assert xs[k + 1] == xs[1..][k];
        assert forall k' :: 1 <= k' < k + 1 ==> xs[k'] == xs[1..][k' - 1];
        Err(rest.error)
      else
        assert forall k :: 1 <= k < |xs| ==> xs[k] == xs[1..][k - 1];
        Ok([one] + rest.value)
  }
}
