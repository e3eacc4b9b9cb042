# Not-found classification of instance-metadata errors

A Dafny model of the error classifier of a small Go program that fetches instance metadata
through the AWS smithy client stack (`main.go`). The program asks one question of an error
returned by a metadata call: does it mean "not found"? `IsNotFound` answers it by walking the
error's unwrap chain with Go's `errors.As`. It first looks for a `*smithy.OperationError`. If
there is one, the answer is whether the first one's rendered text contains `StatusCode: 404`,
and nothing else is consulted. Only when the chain holds no operation error does it look for
the first `smithy.APIError`, and then the answer is whether its code is exactly `NotFound`.
`getMetadata` turns a not-found error into success (`nil`) and returns every other error
unchanged.

The model is pure, as the code is:

- `wrappers.dfy`: `Option`, with `None` standing for Go's `nil`.
- `strings.dfy`: `Strings.Contains`, the substring test of `strings.Contains`, proved equal to
  the existence of an occurrence (`OccursAt`).
- `errors.dfy`: an error value as a non-empty chain of layers, outermost first
  (`OperationErr(rendered)`, `ApiErr(code)`, `Plain(msg)`); the three target types that
  `main.go` hands to `errors.As`; `FirstMatch`, the position of the first layer that matches a
  target.
- `imds.dfy`: `IsNotFound`, a reference statement `NotFoundSpec` written with quantifiers and
  proved equivalent to it, the precedence and wrapping lemmas, the `getMetadata` decision and
  the simulated metadata call.

An operation error at any depth decides the answer, even when an API error stands above it
(main.go:30-32); `Imds.ShallowerApiErrorDoesNotOutrankOperationError` states it.

## Model

| member | source | states |
|---|---|---|
| `Strings.Contains` | main.go:31 | the result is true exactly when the second string occurs at some position of the first (the empty string occurs everywhere) |
| `Strings.ContainsAnywhere` | main.go:31 | a string with the searched text inserted anywhere, between any prefix and suffix, contains it |
| `Errors.FirstMatch` | main.go:29-36 | `errors.As` on a linear chain: a found position holds a matching layer with no matching layer before it; nothing is found exactly when no layer matches |
| `Errors.FirstMatchAt` | main.go:30 | any matching position with no match before it is the one `errors.As` finds |
| `Errors.AsImdsErrorAlwaysSucceeds` | main.go:58-64 | every error satisfies `IMDSError`, which only asks for `Error() string`, so `errors.As` to it always succeeds, at the error itself |
| `Errors.FirstMatchBehindWrappers` | main.go:29-36 | wrappers in front of a chain that do not match the target shift the found position by their number and change nothing else |
| `Imds.IsNotFound` | main.go:23-41 | nil is never "not found"; a "not found" answer needs an operation error or an API error coded `NotFound` in the chain |
| `Imds.IsNotFoundMatchesSpec` | main.go:23-41 | the answer is true exactly when the error is non-nil and either its first operation error renders `StatusCode: 404` somewhere, or it has no operation error and its first API error is coded `NotFound` |
| `Imds.OperationErrorDecides` | main.go:29-32 | when the chain holds an operation error, the answer is whether the first one's rendering contains `StatusCode: 404`, found or not |
| `Imds.ApiErrorsIgnoredUnderOperationError` | main.go:29-37 | with an operation error present, two chains that agree on their operation errors give the same answer whatever API errors they hold |
| `Imds.OperationErrorOutranksApiError` | main.go:30-37 | an operation error without `StatusCode: 404` makes the answer false, whatever API errors, coded `NotFound` or not, stand before or after it |
| `Imds.NoStatusNotFoundIn` | main.go:31 | the rendering `StatusCode: 500` does not contain `StatusCode: 404` |
| `Imds.StaleStatusHidesApiNotFound` | main.go:30-37 | a 500 operation error above an API error coded `NotFound` is not "not found" |
| `Imds.ShallowerApiErrorDoesNotOutrankOperationError` | main.go:30-37 | an API error coded `NotFound` above a 500 operation error is not "not found" either |
| `Imds.StatusNotFoundAnywhere` | main.go:31 | `StatusCode: 404` anywhere in the rendering of the first operation error, at any wrapping depth, gives "not found" |
| `Imds.ApiErrorDecides` | main.go:35-38 | without operation errors, the answer is whether the first API error's code is exactly `NotFound` |
| `Imds.ServerErrorIsNotNotFound` | main.go:35-38 | an API error coded `ServerError` is not "not found" |
| `Imds.NeitherShapeIsNotNotFound` | main.go:40 | a chain of plain errors only is never "not found" |
| `Imds.WrappingPreservesAnswer` | main.go:30-36 | putting any number of plain wrappers in front of an error does not change the answer |
| `Imds.GetMetadata` | main.go:53-75 | the decision on the call's outcome is success (nil) exactly when the call returned nil or a "not found" error; otherwise it is the same error, unchanged |
| `Imds.GetMetadataPropagatesOtherErrors` | main.go:64-71 | an error that is not "not found" is returned unchanged, however many plain wrappers surround it |
| `Imds.SimulateImdsCall` | main.go:44-50 | the simulated call returns a non-nil error whose outermost layer is an operation error |
| `Imds.SimulatedCallIsSuccess` | main.go:54-68 | the simulated 404 is classified "not found", so `getMetadata` reports success |

## Left out

- `main` and every `log.Printf` call: they only write log lines and do not affect any result.
- The smithy library itself: the way `OperationError.Error()` builds its text is not modelled; the rendering is an opaque string of the layer. `Imds.SimulateImdsCall` assumes that text reads "operation error ec2imds: GetMetadata, " followed by the wrapped message.
- The `ErrorMessage` and `ErrorFault` methods of `smithy.APIError`: `IsNotFound` reads only `ErrorCode()`.
- `errors.As` features beyond a linear chain: custom `As` methods and `Unwrap() []error` trees.
- Unwrap chains that never end: if an error's `Unwrap()` returns itself or an earlier error, Go's `errors.As`, and so `IsNotFound` and `getMetadata`, loops forever when no layer before the loop matches; a `Chain` is a finite sequence, so the model always answers.
- Strings are sequences of characters, not UTF-8 bytes. For well-formed strings the substring test gives the same answer.
- Idempotence of the classifier is not stated as a lemma: `IsNotFound` is a Dafny function, so two calls on the same error are equal by definition.
