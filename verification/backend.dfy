/**
 * What every backend handler shares: the ways a call into the database can throw.
 */
module Backend {
  /** Which store call throws: none, the lookup or query, or the write. Any of them ends the handler with 500. */
  datatype Fault = Healthy | ReadFails | WriteFails
}
