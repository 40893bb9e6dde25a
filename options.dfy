/** The optional value used for a cell text that may fail to parse and a row that may fail to
    become a record. */
module Options {

  datatype Option<+T> = None | Some(value: T)

}
