/**
 * Command-line parameters of the affinity-propagation tool: the iteration
 * cap `maxits`, the convergence window `convits` and the damping factor `lam`.
 */
module ApParams {
  import opened Wrappers

  datatype Config = Config(maxits: int, convits: int, lam: real)

  /** The three ways the parameters are rejected, in the order they are checked. */
  datatype ConfigError = MaxItsTooSmall | ConvItsTooSmall | DampingOutOfRange

  /** The values used when the tool is started without the optional parameters. */
  const DefaultConfig: Config := Config(500, 50, 0.9)

  /** A configuration the message-passing loop can run with. */
  predicate ValidConfig(c: Config) {
    c.maxits >= 1 && c.convits >= 1 && 0.5 <= c.lam < 1.0
  }

  /** The parameter checks done before any input is read. */
  function Validate(c: Config): (r: Result<Config, ConfigError>)
    ensures r.Success? <==> ValidConfig(c)
    ensures r.Success? ==> r.value == c
    ensures r == Failure(MaxItsTooSmall) <==> c.maxits < 1
    ensures r == Failure(ConvItsTooSmall) <==> c.maxits >= 1 && c.convits < 1
    ensures r == Failure(DampingOutOfRange) <==>
              c.maxits >= 1 && c.convits >= 1 && !(0.5 <= c.lam < 1.0)
  {
    if c.maxits < 1 then Failure(MaxItsTooSmall)
    else if c.convits < 1 then Failure(ConvItsTooSmall)
    else if c.lam < 0.5 || c.lam >= 1.0 then Failure(DampingOutOfRange)
    else Success(c)
  }

  /** The damping check is exactly the half-open interval [0.5, 1). */
  lemma DampingBoundaries(maxits: int, convits: int)
    requires maxits >= 1 && convits >= 1
    ensures Validate(Config(maxits, convits, 0.49)) == Failure(DampingOutOfRange)
    ensures Validate(Config(maxits, convits, 1.0)) == Failure(DampingOutOfRange)
    ensures Validate(Config(maxits, convits, 0.5)).Success?
    ensures Validate(Config(maxits, convits, 0.999)).Success?
  {
  }

  lemma DefaultIsValid()
    ensures Validate(DefaultConfig) == Success(DefaultConfig)
  {
  }
}
