/** The optional value the predictor uses where Python uses `None`. */
module Optional {

  datatype Option<+T> = None | Some(value: T)
}
