/** The ASCII case fold both runtimes apply in the places the model uses them:
    Java's `equalsIgnoreCase` on the literal "gene" and JavaScript's `toLowerCase`
    in the node search. */
module Ascii {

  /** The lower-case letter for an upper-case ASCII letter; any other character unchanged. */
  function LowerChar(c: char): (r: char)
    ensures 'A' <= c <= 'Z' ==> 'a' <= r <= 'z' && r as int - c as int == 32
    ensures !('A' <= c <= 'Z') ==> r == c
  {
    if 'A' <= c <= 'Z' then (c as int + 32) as char else c
  }
}
