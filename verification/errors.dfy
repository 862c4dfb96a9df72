/** The errors the walkers and the selection command raise. */
module Errors {
  import opened Wrappers
  import opened FileTree

  datatype Error =
    /** `getDirectory` found nothing, or no directory, at `dir`. */
    | NotADirectory(dir: Path)
    /** Listing the directory `dir` failed. */
    | ReadFailed(dir: Path)
    /** A rejection that carries no reason. */
    | Rejected
    /** `select` was given an empty directory path. */
    | NoPathSpecified
    /** Filter number `index` is not a valid regular expression. */
    | PatternError(index: nat)

  /** The message text the program itself composes; the texts of the other
      errors come from the runtime and are not part of the model. */
  function Message(e: Error): (m: Option<string>)
    ensures m.Some? <==> e.NotADirectory? || e.NoPathSpecified?
  {
    match e
    case NotADirectory(dir) => Some(Render(dir) + " is not a directory")
    case NoPathSpecified => Some("No path specified")
    case _ => None
  }

  /** An empty directory path is reported with the text "No path specified". */
  lemma NoPathMessage()
    ensures Message(NoPathSpecified) == Some("No path specified")
  {
  }
}
