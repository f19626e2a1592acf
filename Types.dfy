/** The shared records of types.ts. */
module Types {

  /** One slice of the wheel (`label` is a reserved word in Dafny, hence `labelText`). */
  datatype WheelOption = WheelOption(id: int, labelText: string, color: string, textColor: string)

  datatype GameState = Idle | Spinning | Result
}
