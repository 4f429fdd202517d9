/** The option enums of ecowcdb/options.py that the modelled code branches on.
    `VerboseKW` only selects printing and is not modelled. */
module Options {

  /** How `Analysis` produces the forests it analyses. */
  datatype ForestGeneration = Empty | Partial | All

  /** Which parameters of a generated network are perturbed. */
  datatype NetworkType = Symmetric | AsymmetricFlow | AsymmetricServer

  /** The time unit results are displayed in. */
  datatype DisplayUnit = MicroSecond | MilliSecond | Second | Minute | Hour
}
