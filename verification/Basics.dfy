/** Types shared by every part of the model. */
module Basics {

  datatype Option<+T> = None | Some(value: T)

  /** `struct objc_method`: `uid` stands for the address of the structure, so that
      two methods are the same pointer exactly when they are equal values. */
  datatype Method = Method(uid: nat, selector: nat, imp: nat)

  ghost predicate Distinct(xs: seq<nat>) {
    forall i, j :: 0 <= i < j < |xs| ==> xs[i] != xs[j]
  }
}
