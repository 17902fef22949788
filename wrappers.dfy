/** Optional values: `None` stands for the NaN that pandas leaves in a column
    where a value is not defined. */
module Wrappers {

  datatype Option<+T> = None | Some(value: T)

}
