/** Stock result types. */
module Wrappers {
  datatype Option<+T> = None | Some(value: T)

  datatype Result<+T, +E> = Success(value: T) | Failure(error: E)
}

/**
 * C strings and the small library calls on them that the facade relies on.
 * A C string is the sequence of its characters without the terminator, so
 * "*p != 0" at index p of s is p < |s|.
 */
module Text {
  import opened Wrappers

  /** The text that str_ncpy leaves in a buffer of `size` bytes. */
  function Copy(s: string, size: nat): (r: string)
    requires 0 < size
    ensures r <= s
  {
    if |s| < size then s else s[..size - 1]
  }

  /** `part` stands in `s` at offset `at` (strncmp at an interior pointer). */
  predicate At(s: string, at: nat, part: string) {
    at + |part| <= |s| && s[at..at + |part|] == part
  }

  /** `part` occurs somewhere in `s` (strstr). */
  predicate Contains(s: string, part: string) {
    exists at: nat | at <= |s| :: At(s, at, part)
  }

  /** The first index of `c` in `s` at or after `from` (strchr). */
  function IndexFrom(s: string, from: nat, c: char): (r: Option<nat>)
    requires from <= |s|
    ensures r.Some? ==> from <= r.value < |s| && s[r.value] == c && c !in s[from..r.value]
    ensures r.None? ==> c !in s[from..]
    decreases |s| - from
  {
    if from == |s| then None
    else if s[from] == c then Some(from)
    else
      var r := IndexFrom(s, from + 1, c);
      assert s[from..] == [s[from]] + s[from + 1..];
      assert r.Some? ==> s[from..r.value] == [s[from]] + s[from + 1..r.value];
      r
  }

  function Join(parts: seq<string>): string {
    if |parts| == 0 then ""
    else if |parts| == 1 then parts[0]
    else Join(parts[..|parts| - 1]) + "," + parts[|parts| - 1]
  }
}
