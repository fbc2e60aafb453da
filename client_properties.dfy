/**
 * What the quit test and the sender's line loop amount to, stated independently of their
 * definitions in module Client.
 */
module ClientProperties {
  import opened Common
  import opened Client

  /** `(?i)quit|q` spelled out: "q" or "quit", each letter in either ASCII case. */
  predicate QuitSpelling(line: Bytes)
  {
    || (|line| == 1 && line[0] in {'q' as byte, 'Q' as byte})
    || (|line| == 4 && line[0] in {'q' as byte, 'Q' as byte} && line[1] in {'u' as byte, 'U' as byte}
        && line[2] in {'i' as byte, 'I' as byte} && line[3] in {'t' as byte, 'T' as byte})
  }

  lemma QuitSpellings(line: Bytes)
    ensures IsQuit(line) <==> QuitSpelling(line)
  {
    var quit := Latin1("quit");
    var q := Latin1("q");
    assert quit == [113, 117, 105, 116] && q == [113];
    if |line| == 1 {
      assert Folded(line) == [LowerAscii(line[0])];
    } else if |line| == 4 {
      assert Folded(line) == [LowerAscii(line[0]), LowerAscii(line[1]), LowerAscii(line[2]), LowerAscii(line[3])];
    }
  }

  /** A failed read sends an empty MESSAGE rather than ending the loop. */
  lemma FailedReadIsSent(rest: seq<ReadResult>)
    ensures ChatLines([ReadFailed] + rest).0 == [[]] + ChatLines(rest).0
    ensures ChatLines([ReadFailed] + rest).1 == ChatLines(rest).1
  {
    assert !IsQuit([]);
    assert ([ReadFailed] + rest)[1..] == rest;
  }

  /** The messages of the reads, one per read. */
  function Messages(input: seq<ReadResult>): (ms: seq<Bytes>)
    ensures |ms| == |input| && forall i :: 0 <= i < |input| ==> ms[i] == MessageOf(input[i])
  {
    seq(|input|, i requires 0 <= i < |input| => MessageOf(input[i]))
  }

  /** Without a quit line, every read is sent and the loop runs off the end of the input. */
  lemma {:induction false} ChatLinesWithoutQuit(input: seq<ReadResult>)
    requires forall i :: 0 <= i < |input| ==> !IsQuit(MessageOf(input[i]))
    ensures ChatLines(input) == (Messages(input), false)
  {
    if input != [] {
      ChatLinesWithoutQuit(input[1..]);
      assert Messages(input) == [MessageOf(input[0])] + Messages(input[1..]);
    }
  }

  /** The first quit line ends the loop: exactly the reads before it are sent. */
  lemma {:induction false} ChatLinesQuitAt(input: seq<ReadResult>, j: nat)
    requires j < |input| && IsQuit(MessageOf(input[j]))
    requires forall i :: 0 <= i < j ==> !IsQuit(MessageOf(input[i]))
    ensures ChatLines(input) == (Messages(input[..j]), true)
  {
    if j > 0 {
      ChatLinesQuitAt(input[1..], j - 1);
      assert input[1..][..j - 1] == input[..j][1..];
      assert Messages(input[..j]) == [MessageOf(input[0])] + Messages(input[1..][..j - 1]);
    }
  }
}
