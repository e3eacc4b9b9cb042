/**
 * Error values and their unwrap chains, with the part of Go's `errors.As`
 * that walks a linear chain.
 */
module Errors {
  import opened Wrappers

  /** One error value of a chain, seen through the shapes the classifier recognises. */
  datatype Layer =
    | OperationErr(rendered: string)   // a `*smithy.OperationError`; `rendered` is what its Error() returns
    | ApiErr(code: string)             // any value implementing `smithy.APIError`; `code` is its ErrorCode()
    | Plain(msg: string)               // any other error, e.g. one made by errors.New, or by fmt.Errorf with or without %w

  /**
   * A non-nil error: the value itself followed by what repeated Unwrap()
   * calls yield, outermost first.
   */
  type Chain = c: seq<Layer> | |c| > 0 witness [Plain("")]

  /** The target types `errors.As` is asked for in main.go. */
  datatype Target =
    | OperationErrorTarget   // `*smithy.OperationError`
    | ApiErrorTarget         // the interface `smithy.APIError`
    | ImdsErrorTarget        // the interface `IMDSError`, which needs only Error() string

  /** Whether a layer can be assigned to a variable of the target type. */
  predicate Matches(l: Layer, t: Target) {
    match t
    case OperationErrorTarget => l.OperationErr?
    case ApiErrorTarget => l.ApiErr?
    case ImdsErrorTarget => true
  }

  /** `errors.As`: the position of the first layer of the chain that matches the target. */
  function FirstMatch(c: seq<Layer>, t: Target): (r: Option<nat>)
    ensures r.Some? ==> r.value < |c| && Matches(c[r.value], t)
    ensures r.Some? ==> forall j :: 0 <= j < r.value ==> !Matches(c[j], t)
    ensures r.None? <==> forall j :: 0 <= j < |c| ==> !Matches(c[j], t)
  {
    if |c| == 0 then None
    else if Matches(c[0], t) then Some(0)
    else match FirstMatch(c[1..], t)
      case None => None
      case Some(i) => Some(i + 1)
  }

  /** The first matching position is determined by the chain: any position with no match before it is it. */
  lemma FirstMatchAt(c: seq<Layer>, t: Target, i: nat)
    requires i < |c| && Matches(c[i], t)
    requires forall j :: 0 <= j < i ==> !Matches(c[j], t)
    ensures FirstMatch(c, t) == Some(i)
  {
  }

  /** Every error is an `IMDSError`, so that `errors.As` always succeeds on the error itself. */
  lemma AsImdsErrorAlwaysSucceeds(c: Chain)
    ensures FirstMatch(c, ImdsErrorTarget) == Some(0)
  {
  }

  /**
   * Wrappers in front of a chain that do not match the target shift the
   * first match by their number and change nothing else.
   */
  lemma {:induction false} FirstMatchBehindWrappers(ws: seq<Layer>, c: seq<Layer>, t: Target)
    requires forall j :: 0 <= j < |ws| ==> !Matches(ws[j], t)
    ensures FirstMatch(ws + c, t) ==
      match FirstMatch(c, t)
      case None => None
      case Some(i) => Some(|ws| + i)
  {
    if |ws| > 0 {
      FirstMatchBehindWrappers(ws[1..], c, t);
      assert (ws + c)[1..] == ws[1..] + c;
    } else {
      assert ws + c == c;
    }
  }
}
