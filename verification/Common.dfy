/** Datatypes shared by several components. */
module Common {

  datatype Option<+T> = None | Some(value: T)

  /** The message roles the providers know; any other role string is `Other`. */
  datatype Role = System | User | Assistant | Tool | Other(name: string)

  /** A chat message. Of each tool call only its id matters to the code modelled here. */
  datatype Message = Message(role: Role, content: string, toolCalls: seq<string>, toolCallId: string)
}
