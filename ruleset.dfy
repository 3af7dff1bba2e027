/** The interface every rule family implements (robostat/ruleset.py):
    a blank score, a byte codec and a validation step whose only failure
    is ValidationError. The base class's codec members are abstract; its
    validate accepts anything. */
module Ruleset {
  import opened Common

  /** The single failure signal of every `validate`. */
  datatype ValidationError = ValidationError(msg: string)

  /** What a `validate` call does: return normally or raise ValidationError. */
  type Validation = Outcome<ValidationError>

  /** Number of teams a single score belongs to, unless a family says otherwise. */
  const NumTeams: nat := 1

  /** The base `create_score`: abstract. */
  function AbstractCreateScore<S>(): (r: Result<S, Error>)
    ensures r.Failure? && r.error == NotImplementedError
  {
    Failure(NotImplementedError)
  }

  /** The base `decode`: abstract, whatever the bytes. */
  function AbstractDecode<S>(data: seq<byte>): (r: Result<S, Error>)
    ensures r.Failure? && r.error == NotImplementedError
  {
    Failure(NotImplementedError)
  }

  /** The base `encode`: abstract, whatever the score. */
  function AbstractEncode<S>(score: S): (r: Result<seq<byte>, Error>)
    ensures r.Failure? && r.error == NotImplementedError
  {
    Failure(NotImplementedError)
  }

  /** The base `validate(*scores)`: accepts any number of scores. */
  function DefaultValidate<S>(scores: seq<S>): (r: Validation)
    ensures r.Pass?
  {
    Pass
  }
}
