/** The host outliner's block tree, as its queries return it. */
module Blocks {

  /** One block: its uid, its text and its children in order. */
  datatype Node = Node(uid: string, text: string, children: seq<Node>)
}
