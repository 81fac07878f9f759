/**
 * Shared value types: an optional value, a success-or-error result, and the
 * errors the capture and crop scripts raise before or during a run.
 */
module Base {

  datatype Option<+T> = None | Some(value: T)

  datatype Result<+T, +E> = Success(value: T) | Failure(error: E)

  /** The exceptions the scripts raise, one constructor per kind and place. */
  datatype Error =
      /** configparser.NoOptionError: a profile section lacks a required key. */
    | NoOption(section: string, option: string)
      /** ValueError from configparser.getint: the value is not an integer. */
    | NotAnInteger(section: string, option: string, value: string)
      /** FileNotFoundError: a game, core or configuration file is missing. */
    | FileNotFound(path: string)
      /** ValueError from a range or format check on a profile field. */
    | InvalidValue(section: string, option: string, value: string)
      /** ValueError from an unrecognised --window specification. */
    | InvalidWindow(spec: string)
      /** ValueError from pathlib's relative_to: a shader outside the shader root. */
    | NotRelative(path: string, root: string)
}
