/**
 * `chat_with_model` in `rag_model.py`: the prompt it builds and the answer it cuts out
 * of the generated text.
 *
 * The chat pipeline (a causal language model) enters as a function from prompt to
 * generated text. The Hugging Face text-generation pipeline returns the prompt followed
 * by the continuation, which is why the answer is taken after the last `[/INST]`.
 */
module RagModel {
  import opened Text

  /** The closing instruction tag, whose last occurrence precedes the answer. */
  const InstEnd: string := "[/INST]"

  /** The text of the knowledge-grounded prompt before the question. */
  const GroundedHead: string := "[INST] \n        You are an assistant that answers questions based only on the provided knowledge. \n        You must not use any internal knowledge. When responding, do not mention that the answer is based on provided knowledge.\n\n        The question: "

  /** The text between the question and the knowledge. */
  const GroundedMiddle: string := "\n\n        The knowledge: "

  /** The text after the knowledge. */
  const GroundedTail: string := " \n        " + InstEnd

  /**
   * The prompt `chat_with_model` sends: the bare instruction when the context is blank
   * after `strip()`, otherwise the grounded prompt that quotes question and context.
   */
  function BuildPrompt(userInput: string, context: string): string {
    if Strip(context) != "" then GroundedHead + userInput + GroundedMiddle + context + GroundedTail
    else "[INST] " + userInput + " " + InstEnd
  }

  /**
   * The prompt is the bare instruction when the context is blank after `strip()`;
   * otherwise it is the grounded template quoting the question and then the context.
   * Either way it ends with `[/INST]`.
   */
  lemma BuildPromptSpec(userInput: string, context: string)
    ensures var p := BuildPrompt(userInput, context);
      && (Strip(context) == "" ==> p == "[INST] " + userInput + " " + InstEnd)
      && (Strip(context) != "" ==>
        && StartsWith(p, GroundedHead)
        && OccursAt(p, userInput, |GroundedHead|)
        && OccursAt(p, context, |GroundedHead| + |userInput| + |GroundedMiddle|))
      && EndsWith(p, InstEnd)
  {
    if Strip(context) != "" {
      FiveParts(GroundedHead, userInput, GroundedMiddle, context, " \n        ", InstEnd);
    } else {
      AppendEndsWith("[INST] " + userInput + " ", InstEnd);
    }
  }

  /** `s` begins with `prefix`. */
  predicate StartsWith(s: string, prefix: string) {
    |prefix| <= |s| && s[..|prefix|] == prefix
  }

  /** `s` ends with `suffix`. */
  predicate EndsWith(s: string, suffix: string) {
    |suffix| <= |s| && s[|s| - |suffix|..] == suffix
  }

  /** Where the pieces of the grounded prompt sit in it. */
  lemma FiveParts(a: string, u: string, m: string, c: string, t: string, e: string)
    ensures var p := a + u + m + c + (t + e);
      && StartsWith(p, a)
      && OccursAt(p, u, |a|)
      && OccursAt(p, c, |a| + |u| + |m|)
      && EndsWith(p, e)
  {
    var p := a + u + m + c + (t + e);
    assert p[..|a|] == a;
    assert p[|a|..|a| + |u|] == u;
    assert p[|a| + |u| + |m|..|a| + |u| + |m| + |c|] == c;
    assert p[|p| - |e|..] == e;
  }

  lemma AppendEndsWith(a: string, b: string)
    ensures EndsWith(a + b, b)
  {
    assert (a + b)[|a|..] == b;
  }

  /** `generated_text.split("[/INST]")[-1].strip()`. */
  function ExtractAnswer(generated: string): (a: string)
    ensures IsStripOf(a, LastPiece(generated, InstEnd), IsPySpace)
    ensures !Contains(a, InstEnd)
    ensures IsStripped(a, IsPySpace)
  {
    var piece := LastPiece(generated, InstEnd);
    StripSpec(piece);
    StripContains(Strip(piece), piece, InstEnd, IsPySpace);
    Strip(piece)
  }

  /**
   * `chat_with_model(user_input, context)` with the model given as `generate`: whatever the
   * model writes, the answer holds no `[/INST]` and has no whitespace at either end.
   */
  function ChatWithModel(generate: string -> string, userInput: string, context: string): (a: string)
    ensures !Contains(a, InstEnd)
    ensures IsStripped(a, IsPySpace)
  {
    ExtractAnswer(generate(BuildPrompt(userInput, context)))
  }

  /** The characters of an occurrence are those of the pattern. */
  lemma CharOfOccurrence(s: string, pat: string, i: nat, k: nat)
    requires OccursAt(s, pat, i) && k < |pat|
    ensures s[i + k] == pat[k]
  {
    assert s[i..i + |pat|][k] == s[i + k];
  }

  /** `[/INST]` cannot overlap itself: two occurrences start at least its length apart. */
  lemma InstEndNoSelfOverlap(s: string, i: nat, j: nat)
    requires OccursAt(s, InstEnd, i) && OccursAt(s, InstEnd, j) && i < j
    ensures i + |InstEnd| <= j
  {
    if j < i + |InstEnd| {
      CharOfOccurrence(s, InstEnd, j, 0);
      CharOfOccurrence(s, InstEnd, i, j - i);
      assert false;
    }

  }

  /** No occurrence starts inside a suffix that does not contain the pattern. */
  lemma NoOccurrenceInSuffix(s: string, pat: string, k: nat, j: nat)
    requires k <= j && k <= |s| && !Contains(s[k..], pat)
    ensures !OccursAt(s, pat, j)
  {
    OccursAtDrop(s, pat, k, j - k);
  }

  /**
   * After a text that ends with `[/INST]`, an appended piece without `[/INST]` is what the
   * split leaves last.
   */
  lemma LastPieceAfterTag(p: string, answer: string)
    requires EndsWith(p, InstEnd) && !Contains(answer, InstEnd)
    ensures LastPiece(p + answer, InstEnd) == answer
  {
    var s := p + answer;
    var e := |p| - |InstEnd|;
    SuffixOccurs(p, answer, InstEnd);
    LastSeparatorAfter(s, InstEnd, e);
    var j := |s| - |LastPiece(s, InstEnd)| - |InstEnd|;
    OccurrenceBeforeAnswer(p, answer, InstEnd, j);
    if j < e {
      InstEndNoSelfOverlap(s, j, e);
      assert false;
    } else if e < j {
      InstEndNoSelfOverlap(s, e, j);
      assert false;
    }
    PieceOfLength(s, |p|, InstEnd);
  }

  /** A suffix of `p` occurs in `p + answer` where it ends `p`. */
  lemma SuffixOccurs(p: string, answer: string, tag: string)
    requires EndsWith(p, tag)
    ensures OccursAt(p + answer, tag, |p| - |tag|)
  {
    var e := |p| - |tag|;
    assert (p + answer)[e..e + |tag|] == p[e..];
  }

  /** The last piece is determined by where it starts. */
  lemma PieceOfLength(s: string, start: nat, sep: string)
    requires |sep| > 0 && start <= |s| && |s| - |LastPiece(s, sep)| == start
    ensures LastPiece(s, sep) == s[start..]
  {
  }

  /** An occurrence of `sep` lies before the end of the last separator the split finds. */
  lemma LastSeparatorAfter(s: string, sep: string, e: nat)
    requires |sep| > 0 && OccursAt(s, sep, e)
    ensures Contains(s, sep)
    ensures var j := |s| - |LastPiece(s, sep)| - |sep|;
      && j >= 0 && OccursAt(s, sep, j) && e < j + |sep|
  {
    if !Contains(s, sep) {
      assert false;
    }
  }

  /** An occurrence in `p + answer` where `answer` lacks the pattern starts inside `p`. */
  lemma OccurrenceBeforeAnswer(p: string, answer: string, pat: string, j: nat)
    requires OccursAt(p + answer, pat, j) && !Contains(answer, pat)
    ensures j < |p|
  {
    if |p| <= j {
      var s := p + answer;
      assert s[|p|..] == answer;
      NoOccurrenceInSuffix(s, pat, |p|, j);
      assert false;
    }
  }

  /**
   * The answer round trip: when the pipeline returns the prompt followed by an answer
   * that is already stripped and never mentions `[/INST]`, `chat_with_model` returns
   * exactly that answer, whatever the question and the context.
   */
  lemma AnswerRoundTrip(userInput: string, context: string, answer: string)
    requires !Contains(answer, InstEnd) && IsStripped(answer, IsPySpace)
    ensures ChatWithModel(p => p + answer, userInput, context) == answer
  {
    BuildPromptSpec(userInput, context);
    LastPieceAfterTag(BuildPrompt(userInput, context), answer);
    StrippedIsOwnStrip(answer, IsPySpace);
  }
}
