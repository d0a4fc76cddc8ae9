/** The If-Match / If-None-Match rules shared by the data plane and the engine's state writes. */
module Preconditions {

  datatype IfMatch<+E> = NoIfMatch | AnyTag | Tag(etag: E)

  datatype Current<+E> = Absent | Present(etag: E)

  datatype Check = Satisfied | Failed412 | Required428

  function CheckPreconditions<E(==)>(ifMatch: IfMatch<E>, ifNoneMatchAny: bool, current: Current<E>): Check {
    if current.Present? && ifMatch.NoIfMatch? && !ifNoneMatchAny then
      Required428
    else if ifMatch.AnyTag? && current.Absent? then
      Failed412
    else if ifMatch.Tag? && (current.Absent? || current.etag != ifMatch.etag) then
      Failed412
    else if ifNoneMatchAny && current.Present? then
      Failed412
    else
      Satisfied
  }

  /** A write over something stored proves the client saw it; a create-only write never replaces. */
  lemma SatisfiedIff<E>(ifMatch: IfMatch<E>, ifNoneMatchAny: bool, current: Current<E>)
    ensures CheckPreconditions(ifMatch, ifNoneMatchAny, current).Satisfied? <==>
            match current
            case Absent => ifMatch.NoIfMatch?
            case Present(etag) => !ifNoneMatchAny && (ifMatch.AnyTag? || ifMatch == Tag(etag))
  {
  }
}
