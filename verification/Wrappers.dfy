/** What every component shares: optional values and insertion into a sequence. */
module Wrappers {
  datatype Option<T> = None | Some(value: T)

  lemma InsertedAt<T>(s: seq<T>, e: T, p: nat, i: nat)
    requires p <= |s| && i <= |s|
    ensures (s[..p] + [e] + s[p..])[i] == if i < p then s[i] else if i == p then e else s[i - 1]
  {
  }
}
