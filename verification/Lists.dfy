/** Taking an element out of a list while walking it. */
module Lists {

  /** With `kept` behind the walker and `rest` ahead, removing the next element leaves `kept + rest[1..]`. */
  lemma CutAt<T>(kept: seq<T>, rest: seq<T>)
    requires rest != []
    ensures var list := kept + rest;
            && list[|kept|] == rest[0]
            && list[..|kept|] + list[|kept| + 1..] == kept + rest[1..]
            && list == (kept + [rest[0]]) + rest[1..]
  {
  }
}
