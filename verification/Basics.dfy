/** What several modules share. */
module Basics {
  datatype Option<+T> = None | Some(value: T)

  // Taking an element off what is left to visit, of which all are wanted.
  lemma LeaveOut<T>(all: set<T>, rest: set<T>, n: T)
    requires n in rest
    ensures n !in all ==> all - (rest - {n}) == all - rest
    ensures n in all ==> all - (rest - {n}) == all - rest + {n} && all - rest != all
  {
  }
}
