/** The answer check behind a challenge's "Verify" button, with the delayed
    second phase folded into one decision, and per-browser storage as a map. */
module Verifier {
  import opened Wrappers
  import opened JsStrings
  import opened CatalogData
  import opened Lookup

  datatype Outcome =
    | EmptyInput    // "Please enter an answer"
    | NotAvailable  // the challenge is missing or has no usable answer
    | Correct
    | Incorrect

  /** The page's `localStorage`: string keys to string values. */
  type Store = map<string, string>

  datatype Verification = Verification(outcome: Outcome, store: Store)

  const SolvedPrefix: string := "ctf_solved_"
  const SolvedValue: string := "true"

  /** The storage entry that records a solved challenge. */
  function SolvedKey(key: string): string { SolvedPrefix + key }

  /** Case-folded and trimmed, the form in which answers are compared. */
  function Normalize(s: string): string { Trim(ToLower(s)) }

  /** A challenge the verifier can check: it exists and its answer is truthy. */
  predicate Checkable(ch: Option<Challenge>) {
    ch.Some? && Truthy(ch.value.answer)
  }

  /** The user's text is trimmed again after the first trim and lower-casing;
      neither step changes what the comparison sees. */
  lemma NormalizeOfTrim(s: string)
    ensures Normalize(Trim(s)) == Normalize(s)
  {
    LowerCommutesWithTrim(s);
    TrimIdempotent(ToLower(s));
  }

  /** `verifyAnswer(key)` given the input field's text `input`. */
  function VerifyAnswer(data: seq<Collection>, key: string, input: string, store: Store): (v: Verification)
    ensures v.outcome == EmptyInput <==> AllWhitespace(input)
    ensures v.outcome == NotAvailable <==> !AllWhitespace(input) && !Checkable(LookupKey(data, key))
    ensures v.outcome == Correct <==>
              && !AllWhitespace(input)
              && Checkable(LookupKey(data, key))
              && Normalize(input) == Normalize(LookupKey(data, key).value.answer.value)
    ensures v.store == if v.outcome == Correct then store[SolvedKey(key) := SolvedValue] else store
  {
    var userAnswer := Trim(input);
    if userAnswer == "" then Verification(EmptyInput, store)
    else
      var challenge := LookupKey(data, key);
      if challenge.Some? && Truthy(challenge.value.answer) then
        var correctAnswer := Trim(ToLower(challenge.value.answer.value));
        var userAnswerNormalized := Trim(ToLower(userAnswer));
        NormalizeOfTrim(input);
        if userAnswerNormalized == correctAnswer then
          Verification(Correct, store[SolvedKey(key) := SolvedValue])
        else
          Verification(Incorrect, store)
      else
        Verification(NotAvailable, store)
  }

  lemma {:induction false} ToLowerOfConcat(a: string, b: string)
    ensures ToLower(a + b) == ToLower(a) + ToLower(b)
  {
    var l := ToLower(a + b);
    assert forall i :: 0 <= i < |a| ==> (a + b)[i] == a[i];
    assert forall i :: |a| <= i < |a + b| ==> (a + b)[i] == b[i - |a|];
    assert l == ToLower(a) + ToLower(b);
  }

  lemma LowerOfWhitespace(p: string)
    requires AllWhitespace(p)
    ensures AllWhitespace(ToLower(p))
  {
    forall i | 0 <= i < |p| {
      LowerKeepsWhitespace(p[i]);
    }
  }

  /** Letter case never makes text blank or non-blank. */
  lemma SameUpToCaseBlank(a: string, b: string)
    requires SameUpToCase(a, b)
    ensures AllWhitespace(a) <==> AllWhitespace(b)
  {
    forall i | 0 <= i < |a|
      ensures IsWhitespace(a[i]) <==> IsWhitespace(b[i])
    {
      LowerKeepsWhitespace(a[i]);
      LowerKeepsWhitespace(b[i]);
    }
  }

  /** Padding the user's text with whitespace or changing its letter case never
      changes what it normalises to. */
  lemma NormalizeIgnoresPaddingAndCase(p: string, a: string, b: string, q: string)
    requires AllWhitespace(p) && AllWhitespace(q) && SameUpToCase(a, b)
    ensures Normalize(p + b + q) == Normalize(a)
    ensures AllWhitespace(p + b + q) <==> AllWhitespace(a)
  {
    ToLowerOfConcat(p, b);
    ToLowerOfConcat(p + b, q);
    LowerOfWhitespace(p);
    LowerOfWhitespace(q);
    SameUpToCaseLowersEqual(a, b);
    TrimIgnoresPadding(ToLower(p), ToLower(b), ToLower(q));
    TrimIgnoresPadding(p, b, q);
    SameUpToCaseBlank(a, b);
  }

  /** The outcome and the stored state depend on the user's text only up to
      surrounding whitespace and letter case. */
  lemma VerifyIgnoresPaddingAndCase(data: seq<Collection>, key: string, store: Store, p: string, a: string, b: string, q: string)
    requires AllWhitespace(p) && AllWhitespace(q) && SameUpToCase(a, b)
    ensures VerifyAnswer(data, key, p + b + q, store) == VerifyAnswer(data, key, a, store)
  {
    NormalizeIgnoresPaddingAndCase(p, a, b, q);
  }

  /** Typing the expected answer, in any letter case and with any surrounding
      whitespace, is accepted and records the challenge as solved. */
  lemma ExpectedAnswerAccepted(data: seq<Collection>, key: string, store: Store, p: string, b: string, q: string)
    requires LookupKey(data, key).Some?
    requires LookupKey(data, key).value.answer.Some?
    requires !AllWhitespace(LookupKey(data, key).value.answer.value)
    requires AllWhitespace(p) && AllWhitespace(q)
    requires SameUpToCase(LookupKey(data, key).value.answer.value, b)
    ensures VerifyAnswer(data, key, p + b + q, store) == Verification(Correct, store[SolvedKey(key) := SolvedValue])
  {
    var answer := LookupKey(data, key).value.answer.value;
    NormalizeIgnoresPaddingAndCase(p, answer, b, q);
  }

  lemma NormalizeEmpty(s: string)
    ensures Normalize(s) == [] <==> AllWhitespace(s)
  {
    if AllWhitespace(s) {
      LowerOfWhitespace(s);
    } else {
      var i :| 0 <= i < |s| && !IsWhitespace(s[i]);
      LowerKeepsWhitespace(s[i]);
    }
  }

  /** An answer made only of whitespace is truthy, so the challenge counts as
      checkable, yet no text the verifier gets to compare can ever match it. */
  lemma BlankAnswerNeverAccepted(data: seq<Collection>, key: string, input: string, store: Store)
    requires LookupKey(data, key).Some?
    requires LookupKey(data, key).value.answer.Some?
    requires LookupKey(data, key).value.answer.value != ""
    requires AllWhitespace(LookupKey(data, key).value.answer.value)
    requires !AllWhitespace(input)
    ensures VerifyAnswer(data, key, input, store) == Verification(Incorrect, store)
  {
    NormalizeEmpty(LookupKey(data, key).value.answer.value);
    NormalizeEmpty(input);
  }

  // ---------------------------------------------------------------------------
  // A session of several verifications against the same storage
  // ---------------------------------------------------------------------------

  datatype Attempt = Attempt(key: string, input: string)

  datatype Session = Session(outcomes: seq<Outcome>, store: Store)

  /** Verifications performed one after another, each seeing the storage the
      previous one left. */
  function VerifyAll(data: seq<Collection>, attempts: seq<Attempt>, store: Store): (s: Session)
    ensures |s.outcomes| == |attempts|
    decreases |attempts|
  {
    if |attempts| == 0 then Session([], store)
    else
      var v := VerifyAnswer(data, attempts[0].key, attempts[0].input, store);
      var rest := VerifyAll(data, attempts[1..], v.store);
      Session([v.outcome] + rest.outcomes, rest.store)
  }

  /** What one verification does to storage, stated key by key. */
  lemma StepFacts(store: Store, key: string, v: Verification)
    requires v.store == if v.outcome == Correct then store[SolvedKey(key) := SolvedValue] else store
    ensures store.Keys <= v.store.Keys
    ensures forall k :: k in store && store[k] == SolvedValue ==> v.store[k] == SolvedValue
    ensures forall k :: k in v.store && (k !in store || v.store[k] != store[k]) ==>
              v.outcome == Correct && k == SolvedKey(key) && v.store[k] == SolvedValue
    ensures v.outcome == Correct ==> SolvedKey(key) in v.store && v.store[SolvedKey(key)] == SolvedValue
  {
  }

  /** Over any session no entry is removed, no "true" is lost, and every
      correct attempt leaves its solved record. */
  lemma {:induction false} SessionKeepsRecords(data: seq<Collection>, attempts: seq<Attempt>, store: Store)
    ensures var s := VerifyAll(data, attempts, store);
      && store.Keys <= s.store.Keys
      && (forall k :: k in store && store[k] == SolvedValue ==> s.store[k] == SolvedValue)
      && (forall i :: 0 <= i < |attempts| && s.outcomes[i] == Correct ==>
            SolvedKey(attempts[i].key) in s.store && s.store[SolvedKey(attempts[i].key)] == SolvedValue)
    decreases |attempts|
  {
    if |attempts| > 0 {
      var s := VerifyAll(data, attempts, store);
      var a := attempts[0];
      var v := VerifyAnswer(data, a.key, a.input, store);
      StepFacts(store, a.key, v);
      var tail := attempts[1..];
      var rest := VerifyAll(data, tail, v.store);
      SessionKeepsRecords(data, tail, v.store);
      assert s.store == rest.store && s.outcomes == [v.outcome] + rest.outcomes;
      forall i | 0 <= i < |attempts| && s.outcomes[i] == Correct
        ensures SolvedKey(attempts[i].key) in s.store && s.store[SolvedKey(attempts[i].key)] == SolvedValue
      {
        if i > 0 {
          assert rest.outcomes[i - 1] == Correct && tail[i - 1] == attempts[i];
        }
      }
    }
  }

  /** Over any session, every entry that differs from the initial storage holds
      "true" and is the solved record of an attempt that was correct. */
  lemma {:induction false} SessionChangesOnlySolved(data: seq<Collection>, attempts: seq<Attempt>, store: Store)
    ensures var s := VerifyAll(data, attempts, store);
      forall k :: k in s.store && (k !in store || s.store[k] != store[k]) ==>
        && s.store[k] == SolvedValue
        && exists i :: 0 <= i < |attempts| && s.outcomes[i] == Correct && SolvedKey(attempts[i].key) == k
    decreases |attempts|
  {
    if |attempts| > 0 {
      var s := VerifyAll(data, attempts, store);
      var a := attempts[0];
      var v := VerifyAnswer(data, a.key, a.input, store);
      StepFacts(store, a.key, v);
      var tail := attempts[1..];
      var rest := VerifyAll(data, tail, v.store);
      SessionChangesOnlySolved(data, tail, v.store);
      assert s.store == rest.store && s.outcomes == [v.outcome] + rest.outcomes;
      forall k | k in s.store && (k !in store || s.store[k] != store[k])
        ensures s.store[k] == SolvedValue
        ensures exists i :: 0 <= i < |attempts| && s.outcomes[i] == Correct && SolvedKey(attempts[i].key) == k
      {
        if k in v.store && v.store[k] == rest.store[k] {
          assert k !in store || v.store[k] != store[k];
          assert v.outcome == Correct && k == SolvedKey(a.key);
          assert s.outcomes[0] == Correct && attempts[0] == a;
        } else {
          assert k !in v.store || rest.store[k] != v.store[k];
          var j :| 0 <= j < |tail| && rest.outcomes[j] == Correct && SolvedKey(tail[j].key) == k;
          assert s.outcomes[j + 1] == Correct && attempts[j + 1] == tail[j];
        }
      }
    }
  }
}
