/** The optional value that stands for JavaScript's `null` results (`querySelector`,
    `getAttribute`, `getElementById`). */
module Optional {

  datatype Option<+T> = None | Some(value: T)
}
