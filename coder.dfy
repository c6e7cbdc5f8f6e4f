/** The clean-up the coder agent applies to the language model's reply before
    the reply is executed as a plotting script: optional Markdown code fences
    around the script are removed. */
module Coder {
  import opened Text

  /** The bare fence marker. */
  const Fence: string := "```"

  /** The fence marker that opens a Python code block. */
  const PythonFence: string := "```python"

  /** The reply with surrounding whitespace and fence markers removed. The
      checks run in this order: an opening "```python", then an opening bare
      "```", then a closing "```"; each runs on what the previous step left. */
  function CleanCode(reply: string): (code: string)
    ensures NoEdgeSpace(code)
    ensures |code| <= |reply|
  {
    var c0 := Strip(reply);
    var c1 := if StartsWith(c0, PythonFence) then c0[|PythonFence|..] else c0;
    var c2 := if StartsWith(c1, Fence) then c1[|Fence|..] else c1;
    var c3 := if EndsWith(c2, Fence) then c2[..|c2| - |Fence|] else c2;
    Strip(c3)
  }

  /** The reply comes back merely trimmed exactly when the trimmed reply
      neither starts nor ends with a fence; otherwise something is removed. */
  lemma CleanCodeUnfencedIff(reply: string)
    ensures CleanCode(reply) == Strip(reply)
            <==> !StartsWith(Strip(reply), Fence) && !EndsWith(Strip(reply), Fence)
  {
    var c0 := Strip(reply);
    assert StartsWith(c0, PythonFence) ==> StartsWith(c0, Fence) by {
      if StartsWith(c0, PythonFence) {
        assert c0[..|Fence|] == c0[..|PythonFence|][..|Fence|];
      }
    }
    if !StartsWith(c0, Fence) && !EndsWith(c0, Fence) {
      StripIdempotent(reply);
    }
  }

  /** A reply fenced as a Python block yields exactly its body, trimmed, as
      long as the body does not itself open with a fence: the "```python"
      check runs first, so no stray "python" is left behind. */
  lemma CleanCodePythonBlock(body: string)
    requires !StartsWith(body, Fence)
    ensures CleanCode(PythonFence + body + Fence) == Strip(body)
  {
    var reply := PythonFence + body + Fence;
    assert reply[0] == '`' && reply[|reply| - 1] == '`';
    assert Strip(reply) == reply;
    assert StartsWith(reply, PythonFence) by {
      assert reply[..|PythonFence|] == PythonFence;
    }
    var c1 := reply[|PythonFence|..];
    assert c1 == body + Fence;
    var c2 := if StartsWith(c1, Fence) then c1[|Fence|..] else c1;
    if StartsWith(c1, Fence) {
      // Only possible when the body is at most two backticks long; dropping
      // three backticks from the front then leaves the body itself.
      assert |body| < |Fence|;
      forall i | 0 <= i < |body| ensures body[i] == '`' {
        assert c1[i] == Fence[i];
      }
      assert c2 == body by {
        assert |c2| == |body|;
        forall i | 0 <= i < |body| ensures c2[i] == body[i] {
          assert c2[i] == c1[i + |Fence|];
        }
      }
      assert !EndsWith(c2, Fence);
    } else {
      assert EndsWith(c2, Fence);
      assert c2[..|c2| - |Fence|] == body;
    }
  }

  /** A script bounded by a bare fence on both sides also yields its body,
      unless the body itself begins with the letters "python", which the
      first check then takes for part of an opening "```python". */
  lemma CleanCodeBareBlock(body: string)
    requires !StartsWith(body, "python")
    ensures CleanCode(Fence + body + Fence) == Strip(body)
  {
    var reply := Fence + body + Fence;
    assert reply[0] == '`' && reply[|reply| - 1] == '`';
    assert Strip(reply) == reply;
    assert !StartsWith(reply, PythonFence) by {
      if |body| >= 6 {
        assert reply[|Fence|..|PythonFence|] == body[..6];
      } else {
        // the closing fence would have to supply a letter of "python"
        assert reply[|Fence| + |body|] == '`' != PythonFence[|Fence| + |body|];
      }
    }
    assert StartsWith(reply, Fence) by {
      assert reply[..|Fence|] == Fence;
    }
    var c2 := reply[|Fence|..];
    assert c2 == body + Fence;
    assert EndsWith(c2, Fence);
    assert c2[..|c2| - |Fence|] == body;
  }
}
