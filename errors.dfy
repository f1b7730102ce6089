/** The errors the build-resolution logic reports through its callbacks or throws. */
module Errors {

  datatype Error =
    /** `request` failed, the server answered with a status other than 200, or the body was not
        the expected JSON. */
    | Fetch(reason: string)
    /** A filesystem call (`fs.readdir`, `fs.readFile`) failed. */
    | Io(reason: string)
    /** `SyntaxError('dir does not appear to contain a valid sdk')` from `examineDir`. */
    | InvalidSdk
    /** No build matched: "no matching SDK versions" or "no matched builds". */
    | NoMatch(message: string)
    /** A `TypeError` thrown for a bad argument. */
    | TypeError(message: string)
    /** A child process ended with a non-zero code: "process exited with code: <code>". */
    | Exited(code: int)
}
