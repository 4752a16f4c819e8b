/** The values the executor front-end passes around: optional values, generator replies,
    parsed programs and execution results. */
module Types {

  datatype Option<+T> = None | Some(value: T)

  /** The opaque handle the generation service returns with every reply. */
  type ConversationId = string

  /** One reply of the generation service: the raw text and its conversation handle. */
  datatype Reply = Reply(text: string, conversation: ConversationId)

  /** The code block and the optional package-install line extracted from a reply. */
  datatype Program = Program(code: string, packages: Option<string>)

  type Bytes = seq<bv8>

  /** A file the remote sandbox reports as produced; its content is fetched separately. */
  datatype ArtifactRef = ArtifactRef(name: string)

  /** What one execution hands back: standard output, standard error and the downloaded artifacts, in order. */
  datatype Execution = Execution(stdout: string, stderr: string, artifacts: seq<Bytes>)
}
