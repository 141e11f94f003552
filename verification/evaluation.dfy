/** The apostrophe normaliser and the substring-containment correctness rule. */
module Evaluation {
  import opened Options
  import opened Text

  /** The quote-like code points rewritten to an ASCII apostrophe, in the order the
      replacement table lists them: right and left single quotation marks, single
      high-reversed-9 quotation mark, prime, grave accent, acute accent. */
  const ApostropheVariants: seq<char> :=
    ['\U{2019}', '\U{2018}', '\U{201B}', '\U{2032}', '\U{60}', '\U{B4}']

  /** What normalisation does to one character. */
  function NormalizeChar(c: char): char
  {
    if c in ApostropheVariants then '\'' else c
  }

  /** Applies `s.replace(v, "'")` for each variant `v` of `variants`, in turn. */
  function ReplaceEach(s: string, variants: seq<char>): (r: string)
    ensures |r| == |s|
    ensures forall i :: 0 <= i < |s| ==> r[i] == if s[i] in variants then '\'' else s[i]
    decreases |variants|
  {
    if variants == [] then s
    else ReplaceEach(ReplaceChar(s, variants[0], '\''), variants[1..])
  }

  /** `normalize_text`: an empty text is returned as it is; otherwise every apostrophe
      variant becomes an ASCII apostrophe and every other character stays in place. */
  function NormalizeText(text: string): (r: string)
    ensures text == [] ==> r == []
    ensures |r| == |text|
    ensures forall i :: 0 <= i < |text| ==> r[i] == NormalizeChar(text[i])
    ensures forall i :: 0 <= i < |r| ==> r[i] !in ApostropheVariants
  {
    if text == [] then text else ReplaceEach(text, ApostropheVariants)
  }

  /** Normalising a second time changes nothing. */
  lemma NormalizeIdempotent(text: string)
    ensures NormalizeText(NormalizeText(text)) == NormalizeText(text)
  {
  }

  /** Two texts that differ only in which apostrophe form they use. */
  predicate SameUpToApostrophes(a: string, b: string)
  {
    |a| == |b| && forall i :: 0 <= i < |a| ==> NormalizeChar(a[i]) == NormalizeChar(b[i])
  }

  /** Texts that differ only in apostrophe forms normalise to the same text. */
  lemma NormalizeIdentifiesVariants(a: string, b: string)
    requires SameUpToApostrophes(a, b)
    ensures NormalizeText(a) == NormalizeText(b)
  {
  }

  /** The comparison form of a text: normalised, stripped, then lower-cased. */
  function Canonical(s: string): string
  {
    Lower(Strip(NormalizeText(s)))
  }

  /** `evaluate_response`: an empty or absent response never passes; otherwise the
      canonical expected answer must occur inside the canonical response. */
  function EvaluateResponse(correctAnswer: string, modelResponse: Option<string>): (correct: bool)
    ensures modelResponse == None || modelResponse == Some([]) ==> !correct
    ensures modelResponse.Some? && modelResponse.value != [] ==>
      (correct <==> Occurs(Canonical(modelResponse.value), Canonical(correctAnswer)))
  {
    match modelResponse
    case None => false
    case Some(response) =>
      if response == [] then false
      else
        ContainsIffOccurs(Canonical(response), Canonical(correctAnswer));
        Contains(Canonical(response), Canonical(correctAnswer))
  }

  /** Texts equal up to case normalise to texts equal up to case: no apostrophe variant
      is a letter. */
  lemma NormalizeSameCase(a: string, b: string)
    requires SameUpToCase(a, b)
    ensures SameUpToCase(NormalizeText(a), NormalizeText(b))
  {
    var na, nb := NormalizeText(a), NormalizeText(b);
    forall i | 0 <= i < |a|
      ensures LowerChar(na[i]) == LowerChar(nb[i])
    {
      NormalizeCharSameCase(a[i], b[i]);
    }
  }

  lemma NormalizeCharSameCase(c: char, d: char)
    requires LowerChar(c) == LowerChar(d)
    ensures LowerChar(NormalizeChar(c)) == LowerChar(NormalizeChar(d))
  {
    if c in ApostropheVariants {
      CaseOnlyMergesLetters(c, d);
    } else if d in ApostropheVariants {
      CaseOnlyMergesLetters(d, c);
    }
  }

  /** The comparison is case-insensitive: changing the case of letters in the answer or
      the response never changes the verdict. */
  lemma {:induction false} CaseIrrelevant(answer: string, answer': string, response: string, response': string)
    requires SameUpToCase(answer, answer')
    requires SameUpToCase(response, response')
    ensures EvaluateResponse(answer, Some(response)) == EvaluateResponse(answer', Some(response'))
  {
    NormalizeSameCase(answer, answer');
    StripSameCase(NormalizeText(answer), NormalizeText(answer'));
    NormalizeSameCase(response, response');
    StripSameCase(NormalizeText(response), NormalizeText(response'));
    assert Canonical(answer) == Canonical(answer');
    assert Canonical(response) == Canonical(response');
  }

  /** Whitespace is never an apostrophe variant, and the replacement `'` is not
      whitespace: normalising neither removes nor creates whitespace. */
  lemma WhitespaceNotApostrophe(c: char)
    requires IsWhitespace(c)
    ensures NormalizeChar(c) == c
    ensures !IsWhitespace('\'')
  {
  }

  /** An empty or all-whitespace expected answer passes against every non-empty response. */
  lemma {:induction false} BlankAnswerPasses(correctAnswer: string, response: string)
    requires AllWhitespace(correctAnswer)
    requires response != []
    ensures EvaluateResponse(correctAnswer, Some(response))
  {
    var n := NormalizeText(correctAnswer);
    forall i | 0 <= i < |n|
      ensures IsWhitespace(n[i])
    {
      WhitespaceNotApostrophe(correctAnswer[i]);
    }
    assert Canonical(correctAnswer) == [];
    OccursEmpty(Canonical(response));
  }

  /** Every non-empty response passes against itself as the expected answer. */
  lemma {:induction false} ResponsePassesItself(response: string)
    requires response != []
    ensures EvaluateResponse(response, Some(response))
  {
    OccursSelf(Canonical(response));
  }

  /** Containment, not equality, in the other direction: an expected answer whose
      canonical form is longer than the response's never passes. */
  lemma AnswerLongerThanResponseFails(correctAnswer: string, response: string)
    ensures |Canonical(correctAnswer)| > |Canonical(response)| ==>
      !EvaluateResponse(correctAnswer, Some(response))
  {
    var haystack, needle := Canonical(response), Canonical(correctAnswer);
    if |needle| > |haystack| {
      forall k
        ensures !OccursAt(haystack, needle, k)
      {
      }
    }
  }

  /** Swapping apostrophe forms in either argument does not change the verdict. */
  lemma {:induction false} ApostropheFormIrrelevant(
    answer: string, answer': string, response: string, response': string)
    requires SameUpToApostrophes(answer, answer')
    requires SameUpToApostrophes(response, response')
    ensures EvaluateResponse(answer, Some(response)) == EvaluateResponse(answer', Some(response'))
  {
    NormalizeIdentifiesVariants(answer, answer');
    NormalizeIdentifiesVariants(response, response');
  }
}
