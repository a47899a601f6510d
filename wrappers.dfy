/** Optional values, used wherever the plug-in works with a Java null or
    ends in an exception. */
module Wrappers {

  /** A value that may be missing: `None` stands for Java's null. */
  datatype Option<+T> = None | Some(value: T)
}
