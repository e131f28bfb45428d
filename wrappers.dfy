/** Optional values: the `T | undefined` results of the task-list searches. */
module Wrappers {

  datatype Option<+T> = None | Some(value: T)
}
