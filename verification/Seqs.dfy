/** The last element of a sequence, and what comes before it. */
module Seqs {

  function Last<T>(s: seq<T>): T requires |s| > 0 { s[|s| - 1] }

  function Init<T>(s: seq<T>): seq<T> requires |s| > 0 { s[..|s| - 1] }
}
