/** Loading the task list when the app starts (`getInitialTasks`). The stored
    text and the JSON parser are inputs: `parse` stands for `JSON.parse`, with
    a thrown exception reported as `Unparsable`. */
module Hydration {
  import opened Wrappers
  import opened TaskList

  datatype Parsed = Unparsable | NotAnArray | AnArray(items: seq<Task>)

  /** The stored array when there is a non-empty stored text that parses to an
      array; the empty list in every other case (no entry, empty text, parse
      failure, a value that is not an array). */
  function InitialTasks(stored: Option<string>, parse: string -> Parsed): (r: seq<Task>)
    ensures r != [] ==> stored.Some? && stored.value != "" && parse(stored.value) == AnArray(r)
    ensures stored.Some? && stored.value != "" && parse(stored.value).AnArray? ==> r == parse(stored.value).items
  {
    match stored
    case None => []
    case Some(text) =>
      if text == "" then []
      else
        match parse(text)
        case AnArray(items) => items
        case _ => []
  }

  /** Whatever the app writes under the tasks key comes back on the next start,
      given a serializer that never writes the empty string and a parser that
      reads back what it wrote. */
  lemma LoadAfterPersist(tasks: seq<Task>, stringify: seq<Task> -> string, parse: string -> Parsed)
    requires stringify(tasks) != ""
    requires parse(stringify(tasks)) == AnArray(tasks)
    ensures InitialTasks(Some(stringify(tasks)), parse) == tasks
  {
  }
}
