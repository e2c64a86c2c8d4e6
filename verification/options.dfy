/** The optional value the scripts use for every operation that can fail
    (a failed random draw, a colour conflict, a missing vertex). */
module Options {

  datatype Option<+T> = None | Some(value: T)

}
