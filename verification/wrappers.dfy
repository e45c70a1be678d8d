/** Optional values: `None` stands for a missing cell (pandas NaN/None) or for a
    computation that raises or yields no finite number in the source. */
module Wrappers {

  datatype Option<+T> = None | Some(value: T)
}
