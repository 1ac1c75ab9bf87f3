/** An optional value: `None` stands for a .NET call that throws instead of returning. */
module Options {
  datatype Option<+T> = None | Some(value: T)
}
