/** Datatypes shared by the models of the separate components. */
module Types {

  datatype Option<+T> = None | Some(value: T)

}
