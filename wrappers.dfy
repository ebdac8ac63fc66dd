/** The optional-value datatype used throughout the model. In the JavaScript
    source a missing field reads as `undefined`; here that is `None`, and
    `undefined === undefined` is `None == None`. */
module Wrappers {

  datatype Option<+T> = None | Some(value: T)

  /** How JavaScript renders an optional string inside a template literal:
      `${undefined}` is the text "undefined". */
  function Show(v: Option<string>): string {
    match v
    case None => "undefined"
    case Some(s) => s
  }
}
