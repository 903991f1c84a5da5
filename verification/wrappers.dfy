/** Optional values, standing in for the `undefined`/`null` results of the bot's lookups. */
module Wrappers {

  datatype Option<+T> = None | Some(value: T)

}
