/** The job arguments that travel from the client to the worker. */
module JobArgs {

  /** Stands for an input file until the worker knows its local path. */
  const PLACEHOLDER := "<INPUT_FILE>"
}
