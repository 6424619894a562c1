/** The values the compiler puts in its constant pool and the machine pushes on its stack. */
module Object {
  import opened Ints

  datatype Object =
    | Integer(intValue: Int64)
    | Boolean(boolValue: bool)
}
