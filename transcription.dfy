/** The pure part of `espeak_pronunciations` (index.js:219-250): the text a batch
    of words is turned into before it goes to espeak, and the check that pairs
    espeak's output lines with the words of the batch. Spawning espeak and
    collecting its stdout, stderr and exit code happen outside this model; they
    are the inputs of `Correlate`. */
module Transcription {
  import opened Wrappers
  import opened Text

  /** The characters deleted from the batch text: `/[,.;!?]/g`. */
  const Punctuation: set<char> := {',', '.', ';', '!', '?'}

  /** One record pushed downstream: a word of the batch and its transcription. */
  datatype Pronunciation = Pronunciation(word: string, pronunciation: string)

  /** Why a batch fails as a whole. The exit code is `None` when espeak was
      stopped by a signal (Node then reports a null code). */
  datatype BatchError =
    | ExitStatus(code: Option<int>)
    | CountMismatch(lines: nat, words: nat)

  /** One word as espeak sees it: its punctuation deleted. */
  function StripWord(word: string): (r: string)
    ensures forall c :: c in r ==> c in word && c !in Punctuation
  {
    RemoveAll(word, Punctuation)
  }

  /** The text written to espeak's stdin: the words joined with newlines, then
      every `,` `.` `;` `!` `?` deleted (index.js:222). */
  function PrepareInput(words: seq<string>): (r: string)
    ensures forall c :: c in r ==> c !in Punctuation
  {
    RemoveAll(Join(words, '\n'), Punctuation)
  }

  /** Every word of a batch as espeak sees it. */
  function StripWords(words: seq<string>): (r: seq<string>)
    ensures |r| == |words| && forall k :: 0 <= k < |words| ==> r[k] == StripWord(words[k])
  {
    seq(|words|, k requires 0 <= k < |words| => StripWord(words[k]))
  }

  lemma PrepareInputCons(words: seq<string>)
    requires |words| > 1
    ensures PrepareInput(words) == StripWord(words[0]) + ['\n'] + PrepareInput(words[1..])
  {
    var rest := Join(words[1..], '\n');
    var nl: string := ['\n'];
    assert Join(words, '\n') == words[0] + nl + rest;
    assert RemoveAll(nl, Punctuation) == nl by { RemoveAllNone(nl, Punctuation); }
    calc {
      PrepareInput(words);
      RemoveAll(words[0] + nl + rest, Punctuation);
      { RemoveAllAppend(words[0] + nl, rest, Punctuation); }
      RemoveAll(words[0] + nl, Punctuation) + RemoveAll(rest, Punctuation);
      { RemoveAllAppend(words[0], nl, Punctuation); }
      StripWord(words[0]) + nl + PrepareInput(words[1..]);
    }
  }

  /** Deleting punctuation from the joined text deletes it word by word, since
      the newline separator is not punctuation. */
  lemma {:induction false} PrepareInputByWord(words: seq<string>)
    ensures PrepareInput(words) == Join(StripWords(words), '\n')
  {
    var stripped := StripWords(words);
    if |words| == 0 {
    } else if |words| == 1 {
      assert Join(words, '\n') == words[0];
    } else {
      PrepareInputCons(words);
      PrepareInputByWord(words[1..]);
      assert stripped[1..] == StripWords(words[1..]);
      assert Join(stripped, '\n') == stripped[0] + ['\n'] + Join(stripped[1..], '\n');
    }
  }

  /** The prepared text has one line per word, holding that word with its
      punctuation deleted, provided no word contains a newline. */
  lemma PrepareInputLines(words: seq<string>)
    requires |words| >= 1
    requires forall k :: 0 <= k < |words| ==> '\n' !in words[k]
    ensures |Split(PrepareInput(words), '\n')| == |words|
    ensures forall k :: 0 <= k < |words| ==> Split(PrepareInput(words), '\n')[k] == StripWord(words[k])
  {
    PrepareInputByWord(words);
    SplitJoin(StripWords(words), '\n');
  }

  /** Words free of newlines and punctuation come back unchanged from splitting
      the prepared text on newlines. */
  lemma PrepareInputRoundTrip(words: seq<string>)
    requires |words| >= 1
    requires forall k :: 0 <= k < |words| ==> '\n' !in words[k]
    requires forall k, c :: 0 <= k < |words| && c in words[k] ==> c !in Punctuation
    ensures Split(PrepareInput(words), '\n') == words
  {
    PrepareInputLines(words);
    forall k | 0 <= k < |words| ensures StripWord(words[k]) == words[k] {
      RemoveAllNone(words[k], Punctuation);
    }
  }

  /** Word `k` paired with line `k`, for every `k`. */
  function Zip(words: seq<string>, lines: seq<string>): (r: seq<Pronunciation>)
    requires |words| == |lines|
    ensures |r| == |words| && forall k :: 0 <= k < |words| ==> r[k] == Pronunciation(words[k], lines[k])
  {
    seq(|words|, k requires 0 <= k < |words| => Pronunciation(words[k], lines[k]))
  }

  /** Every line trimmed. */
  function TrimLines(lines: seq<string>): (r: seq<string>)
    ensures |r| == |lines| && forall k :: 0 <= k < |lines| ==> r[k] == Trim(lines[k])
  {
    seq(|lines|, k requires 0 <= k < |lines| => Trim(lines[k]))
  }

  /** What the exit handler does with espeak's exit code and stdout
      (index.js:238-247): fail on a non-zero (or missing) exit code; otherwise
      trim the output, split it into lines, fail unless there is exactly one
      line per word, and pair word `k` with line `k`, trimmed. */
  function Correlate(exitCode: Option<int>, words: seq<string>, output: string): (r: Result<seq<Pronunciation>, BatchError>)
    ensures exitCode != Some(0) ==> r == Err(ExitStatus(exitCode))
    ensures var lines := Split(Trim(output), '\n');
            (r.Ok? <==> exitCode == Some(0) && |lines| == |words|) &&
            (exitCode == Some(0) && |lines| != |words| ==> r == Err(CountMismatch(|lines|, |words|))) &&
            (r.Ok? ==> |r.value| == |words| &&
                       forall k :: 0 <= k < |words| ==>
                         r.value[k] == Pronunciation(words[k], Trim(lines[k])) && '\n' !in r.value[k].pronunciation)
  {
    if exitCode != Some(0) then Err(ExitStatus(exitCode))
    else
      var lines := Split(Trim(output), '\n');
      if |lines| != |words| then Err(CountMismatch(|lines|, |words|))
      else
        var pairs := Zip(words, TrimLines(lines));
        assert forall k :: 0 <= k < |words| ==>
                 pairs[k] == Pronunciation(words[k], Trim(lines[k])) && '\n' !in pairs[k].pronunciation by {
          forall k | 0 <= k < |words|
            ensures pairs[k] == Pronunciation(words[k], Trim(lines[k])) && '\n' !in pairs[k].pronunciation
          {
            TrimKeepsOut(lines[k], '\n');
          }
        }
        Ok(pairs)
  }

  /** When espeak exits with 0 and prints one newline-free line per word (with
      any whitespace around the whole output), each word is paired with its
      own line, trimmed, in order. */
  lemma {:induction false} CorrelateMatchesLines(words: seq<string>, lines: seq<string>, pre: string, post: string)
    requires |words| == |lines| >= 1
    requires forall k :: 0 <= k < |lines| ==> '\n' !in lines[k]
    requires Trimmed(Join(lines, '\n'))
    requires AllSpace(pre) && AllSpace(post)
    ensures Correlate(Some(0), words, pre + Join(lines, '\n') + post) == Ok(Zip(words, TrimLines(lines)))
  {
    TrimAround(pre, Join(lines, '\n'), post);
    SplitJoin(lines, '\n');
  }

  /** Any line count other than the number of words fails the whole batch with
      a count error and yields no records, whatever the output says and
      whatever whitespace surrounds it (espeak starts each line with a space
      and ends the output with a newline). */
  lemma {:induction false} CorrelateCountMismatch(words: seq<string>, lines: seq<string>, pre: string, post: string)
    requires |lines| >= 1 && |lines| != |words|
    requires forall k :: 0 <= k < |lines| ==> '\n' !in lines[k]
    requires Trimmed(Join(lines, '\n'))
    requires AllSpace(pre) && AllSpace(post)
    ensures Correlate(Some(0), words, pre + Join(lines, '\n') + post) == Err(CountMismatch(|lines|, |words|))
  {
    var out := pre + Join(lines, '\n') + post;
    assert Trim(out) == Join(lines, '\n') by {
      TrimAround(pre, Join(lines, '\n'), post);
    }
    assert Split(Trim(out), '\n') == lines by {
      SplitJoin(lines, '\n');
    }
  }

  /** A one-word batch against espeak's two-line reply `" k'at\n dO:g\n"` fails
      with a count error, not with an exit-status error. */
  lemma TwoLinesForOneWord()
    ensures Correlate(Some(0), ["cat"], " k'at\n dO:g\n") == Err(CountMismatch(2, 1))
  {
    var lines := ["k'at", " dO:g"];
    assert Join(lines, '\n') == "k'at\n dO:g";
    assert " " + Join(lines, '\n') + "\n" == " k'at\n dO:g\n";
    CorrelateCountMismatch(["cat"], lines, " ", "\n");
  }

  /** An empty (or all-whitespace) output counts as one empty line: it passes
      for a one-word batch, pairing the word with the empty transcription, and
      fails for every other batch size. */
  lemma EmptyOutputIsOneLine(words: seq<string>, output: string)
    requires AllSpace(output)
    ensures Correlate(Some(0), words, output).Ok? <==> |words| == 1
    ensures |words| == 1 ==> Correlate(Some(0), words, output) == Ok([Pronunciation(words[0], "")])
  {
    assert Trim(output) == "" by {
      TrimAround(output, [], []);
      assert output + [] + [] == output;
    }
    var lines := Split("", '\n');
    assert lines == [""] by {
      assert FirstIndex("", '\n') == None;
    }
    if |words| == 1 {
      assert Trim("") == "" by {
        TrimAround([], [], []);
      }
      assert TrimLines(lines) == [""];
      assert Zip(words, [""]) == [Pronunciation(words[0], "")];
    }
  }
}
