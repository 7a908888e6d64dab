/** The two result shapes the rest of the model shares. */
module Common {

  datatype Option<+T> = None | Some(value: T)

  /** A thrown error is a value here, so that failing calls are modelled instead of excluded. */
  datatype Result<+T, +E> = Ok(value: T) | Err(error: E)

  lemma TakeNext<T>(s: seq<T>, i: nat)
    requires i < |s|
    ensures s[..i + 1] == s[..i] + [s[i]]
  {
  }

  lemma DropHead<T>(s: seq<T>, i: nat)
    requires i < |s|
    ensures s[i..] != [] && s[i..][0] == s[i] && s[i..][1..] == s[i + 1..]
  {
  }

  lemma SplitLast<T>(s: seq<T>)
    requires s != []
    ensures s == s[..|s| - 1] + [s[|s| - 1]]
  {
  }
}
