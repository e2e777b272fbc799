/**
 The context fragments that providers contribute to a request.
 */
module Fragments {
  import opened Options

  datatype Fragment = Fragment(owner: string, content: string, priority: int, budget: real, slot: Option<string>)
}
