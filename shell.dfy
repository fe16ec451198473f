/** The string command of the shell front end (`ShellEmulator.rev`). */
module Shell {
  /** `rev(string)`: the characters of `s` in reverse order (`s[::-1]`). */
  function Rev(s: string): (r: string)
    ensures |r| == |s|
    ensures forall i :: 0 <= i < |s| ==> r[i] == s[|s| - 1 - i]
  {
    if s == [] then [] else Rev(s[1..]) + [s[0]]
  }

  /** Reversing twice gives the string back. */
  lemma RevInvolutive(s: string)
    ensures Rev(Rev(s)) == s
  {
    assert forall i :: 0 <= i < |s| ==> Rev(Rev(s))[i] == s[i];
  }

  /** Reversal turns a concatenation around. */
  lemma RevConcat(a: string, b: string)
    ensures Rev(a + b) == Rev(b) + Rev(a)
  {
    assert forall i :: 0 <= i < |a + b| ==> Rev(a + b)[i] == (Rev(b) + Rev(a))[i];
  }

  /** The two strings of the repository's test of `rev`. */
  lemma RevExamples()
    ensures Rev("Hello") == "olleH"
    ensures Rev("12345") == "54321"
  {
  }
}
