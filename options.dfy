/** The usual optional value, used by the scanner and the parser for "no parse". */
module Options {

  datatype Option<+T> = None | Some(value: T)
}
