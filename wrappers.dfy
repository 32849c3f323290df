/** Option and Result, the error-carrying values used across the model. */
module Wrappers {

  datatype Option<+T> = None | Some(value: T) {
    function GetOr(default: T): T {
      match this
      case Some(v) => v
      case None => default
    }
  }

  datatype Result<+R> = Success(value: R) | Failure(error: string)

  /** An argument that the source accepts either as one string or as an array of strings
      (`Array.isArray(x) ? x : [x]`). */
  datatype OneOrMany = One(name: string) | Many(names: seq<string>) {
    function AsList(): (r: seq<string>)
      ensures One? ==> r == [name]
      ensures Many? ==> r == names
    {
      match this
      case One(n) => [n]
      case Many(ns) => ns
    }
  }
}
