/**
 * The "not found" classifier for instance-metadata errors and the decision
 * getMetadata takes on the error of a metadata call (main.go).
 */
module Imds {
  import opened Wrappers
  import opened Strings
  import opened Errors

  /** The status text an operation error must render to count as not found. */
  const StatusNotFound: string := "StatusCode: 404"

  /** The API error code that counts as not found. */
  const NotFoundCode: string := "NotFound"

  /** Position `i` holds the first layer of the chain that matches the target. */
  ghost predicate FirstAt(c: seq<Layer>, t: Target, i: int) {
    0 <= i < |c| && Matches(c[i], t) && forall j :: 0 <= j < i ==> !Matches(c[j], t)
  }

  /** No layer of the sequence matches the target. */
  ghost predicate NoneMatch(c: seq<Layer>, t: Target) {
    forall j :: 0 <= j < |c| ==> !Matches(c[j], t)
  }

  /**
   * Reference statement of "not found", independent of the search order:
   * the error is non-nil, and either its first operation error renders the
   * 404 status somewhere, or it has no operation error at all and its first
   * API error carries the code NotFound.
   */
  ghost predicate NotFoundSpec(err: Option<Chain>) {
    match err
    case None => false
    case Some(c) =>
      || (exists i :: FirstAt(c, OperationErrorTarget, i) && exists k :: OccursAt(c[i].rendered, StatusNotFound, k))
      || (NoneMatch(c, OperationErrorTarget) && exists i :: FirstAt(c, ApiErrorTarget, i) && c[i].code == NotFoundCode)
  }

  /** IsNotFound: whether an error, possibly nil and possibly wrapped, means "not found". */
  function IsNotFound(err: Option<Chain>): (r: bool)
    ensures err.None? ==> !r
    ensures r ==> exists i :: 0 <= i < |err.value| && (err.value[i].OperationErr? || err.value[i] == ApiErr(NotFoundCode))
  {
    match err
    case None => false
    case Some(c) =>
      match FirstMatch(c, OperationErrorTarget)
      case Some(i) => Contains(c[i].rendered, StatusNotFound)
      case None =>
        match FirstMatch(c, ApiErrorTarget)
        case Some(i) => c[i].code == NotFoundCode
        case None => false
  }

  /** IsNotFound agrees with the reference statement on every error, in both directions. */
  lemma IsNotFoundMatchesSpec(err: Option<Chain>)
    ensures IsNotFound(err) <==> NotFoundSpec(err)
  {
  }

  /**
   * Once the chain holds an operation error, the first one decides alone:
   * the answer is whether its rendering contains the 404 status.
   */
  lemma OperationErrorDecides(c: Chain, i: nat)
    requires FirstAt(c, OperationErrorTarget, i)
    ensures IsNotFound(Some(c)) == Contains(c[i].rendered, StatusNotFound)
  {
  }

  /**
   * API errors do not matter when an operation error is present: two chains
   * that agree on where their operation errors are and what they render give
   * the same answer, whatever their other layers are.
   */
  lemma ApiErrorsIgnoredUnderOperationError(c: Chain, d: Chain)
    requires |c| == |d|
    requires exists i :: 0 <= i < |c| && c[i].OperationErr?
    requires forall j :: 0 <= j < |c| && (c[j].OperationErr? || d[j].OperationErr?) ==> c[j] == d[j]
    ensures IsNotFound(Some(c)) == IsNotFound(Some(d))
  {
  }

  /**
   * Precedence: an operation error that does not render the 404 status makes
   * the answer false, even with an API error coded NotFound before or after it.
   */
  lemma OperationErrorOutranksApiError(ws: seq<Layer>, rendered: string, rest: seq<Layer>)
    requires forall j :: 0 <= j < |ws| ==> !ws[j].OperationErr?
    requires !Contains(rendered, StatusNotFound)
    ensures !IsNotFound(Some(ws + [OperationErr(rendered)] + rest))
  {
    var c := ws + [OperationErr(rendered)] + rest;
    OperationErrorDecides(c, |ws|);
  }

  /** A rendering that carries another status code does not contain the 404 status. */
  lemma NoStatusNotFoundIn()
    ensures !Contains("StatusCode: 500", StatusNotFound)
  {
    var s := "StatusCode: 500";
    assert s[0..|s|] == s;
  }

  /** A concrete case of the precedence: a 500 operation error above an API error coded NotFound. */
  lemma StaleStatusHidesApiNotFound()
    ensures !IsNotFound(Some([OperationErr("StatusCode: 500"), ApiErr(NotFoundCode)]))
  {
    var s := "StatusCode: 500";
    NoStatusNotFoundIn();
    OperationErrorOutranksApiError([], s, [ApiErr(NotFoundCode)]);
  }

  /** The same holds with the API error coded NotFound outside the operation error. */
  lemma ShallowerApiErrorDoesNotOutrankOperationError()
    ensures !IsNotFound(Some([ApiErr(NotFoundCode), OperationErr("StatusCode: 500")]))
  {
    var s := "StatusCode: 500";
    NoStatusNotFoundIn();
    OperationErrorOutranksApiError([ApiErr(NotFoundCode)], s, []);
  }

  /** The 404 status counts wherever it stands in the rendering and however deep the operation error is. */
  lemma StatusNotFoundAnywhere(ws: seq<Layer>, prefix: string, suffix: string, rest: seq<Layer>)
    requires forall j :: 0 <= j < |ws| ==> !ws[j].OperationErr?
    ensures IsNotFound(Some(ws + [OperationErr(prefix + StatusNotFound + suffix)] + rest))
  {
    var c := ws + [OperationErr(prefix + StatusNotFound + suffix)] + rest;
    ContainsAnywhere(prefix, StatusNotFound, suffix);
    OperationErrorDecides(c, |ws|);
  }

  /**
   * Without operation errors, the first API error decides: the answer is
   * whether its code is exactly NotFound.
   */
  lemma ApiErrorDecides(c: Chain, i: nat)
    requires NoneMatch(c, OperationErrorTarget)
    requires FirstAt(c, ApiErrorTarget, i)
    ensures IsNotFound(Some(c)) <==> c[i].code == NotFoundCode
  {
  }

  /** A concrete case: an API error coded ServerError is not "not found". */
  lemma ServerErrorIsNotNotFound()
    ensures !IsNotFound(Some([Plain("fetch failed"), ApiErr("ServerError")]))
  {
  }

  /** A chain with neither an operation error nor an API error is never "not found". */
  lemma NeitherShapeIsNotNotFound(c: Chain)
    requires forall j :: 0 <= j < |c| ==> c[j].Plain?
    ensures !IsNotFound(Some(c))
  {
  }

  /** Wrapping an error in any number of plain wrappers does not change the answer. */
  lemma WrappingPreservesAnswer(ws: seq<Layer>, c: Chain)
    requires forall j :: 0 <= j < |ws| ==> ws[j].Plain?
    ensures IsNotFound(Some(ws + c)) == IsNotFound(Some(c))
  {
    FirstMatchBehindWrappers(ws, c, OperationErrorTarget);
    FirstMatchBehindWrappers(ws, c, ApiErrorTarget);
    match FirstMatch(c, OperationErrorTarget)
    case Some(i) => assert (ws + c)[|ws| + i] == c[i];
    case None =>
      match FirstMatch(c, ApiErrorTarget)
      case Some(i) => assert (ws + c)[|ws| + i] == c[i];
      case None =>
  }

  /**
   * The decision getMetadata takes on the outcome of the metadata call:
   * nil stays nil, a "not found" error becomes success (nil), and any other
   * error is returned unchanged.
   */
  function GetMetadata(callResult: Option<Chain>): (r: Option<Chain>)
    ensures r.None? <==> callResult.None? || IsNotFound(callResult)
    ensures r.Some? ==> r == callResult
  {
    match callResult
    case None => None
    case Some(c) =>
      if FirstMatch(c, ImdsErrorTarget).Some? then
        if IsNotFound(callResult) then None else callResult
      else
        callResult
  }

  /** getMetadata never swallows an error that is not "not found", however deeply it is wrapped. */
  lemma GetMetadataPropagatesOtherErrors(ws: seq<Layer>, c: Chain)
    requires forall j :: 0 <= j < |ws| ==> ws[j].Plain?
    requires !IsNotFound(Some(c))
    ensures GetMetadata(Some(ws + c)) == Some(ws + c)
  {
    WrappingPreservesAnswer(ws, c);
  }

  /** The message of the error the simulated metadata call wraps. */
  const SimulatedCause: string :=
    "http response error " + StatusNotFound + ", request to EC2 IMDS failed"

  /**
   * simulateEC2IMDSCall: the error an operation error of service ec2imds,
   * operation GetMetadata, returns, its rendering including the message of
   * the error it wraps.
   */
  function SimulateImdsCall(): (err: Option<Chain>)
    ensures err.Some? && err.value[0].OperationErr?
  {
    var c := [OperationErr("operation error ec2imds: GetMetadata, " + SimulatedCause), Plain(SimulatedCause)];
    Some(c)
  }

  /** The simulated 404 is recognised as "not found", so getMetadata reports success. */
  lemma SimulatedCallIsSuccess()
    ensures IsNotFound(SimulateImdsCall())
    ensures GetMetadata(SimulateImdsCall()) == None
  {
    var prefix := "operation error ec2imds: GetMetadata, " + "http response error ";
    var suffix := ", request to EC2 IMDS failed";
    var head := "operation error ec2imds: GetMetadata, ";
    assert head + SimulatedCause == prefix + StatusNotFound + suffix;
    StatusNotFoundAnywhere([], prefix, suffix, [Plain(SimulatedCause)]);
  }
}
