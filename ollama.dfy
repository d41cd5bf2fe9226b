/** The language-model side of a decision: the model picked from the names
    the server lists, the raw answer reduced to one of the four actions, and
    the request loop. The HTTP calls are oracles: the list of model names is
    a parameter, and the outcome of the k-th request is `post(k)`. Text is
    handled as ASCII: `lower()`, `strip()` and the regex `\b` are modelled on
    ASCII characters. */
module Ollama {
  import opened Wrappers
  import opened Players

  /** One of "fold", "check", "bet", "raise". */
  predicate IsAction(s: string) {
    s == FOLD || s == CHECK || s == BET || s == RAISE
  }

  /** The alternatives of the regex, in the order it tries them. */
  const ACTIONS: seq<string> := [FOLD, CHECK, BET, RAISE]

  // ---------------------------------------------------------------------------
  // Characters

  /** A word character for `\b`: an ASCII letter, digit or underscore. */
  predicate IsWordChar(c: char) {
    'a' <= c <= 'z' || 'A' <= c <= 'Z' || '0' <= c <= '9' || c == '_'
  }

  /** ASCII whitespace as `str.strip()` removes it: the space, tab, line
      feed, vertical tab, form feed, carriage return and the separators
      0x1c to 0x1f. */
  predicate IsSpace(c: char) {
    c == ' ' || 9 <= c as int <= 13 || 28 <= c as int <= 31
  }

  function LowerChar(c: char): char {
    if 'A' <= c <= 'Z' then (c as int + 32) as char else c
  }

  /** `s.lower()` */
  function Lower(s: string): string {
    seq(|s|, i requires 0 <= i < |s| => LowerChar(s[i]))
  }

  /** Lowering twice is lowering once. */
  lemma LowerIdempotent(s: string)
    ensures Lower(Lower(s)) == Lower(s)
  {
    assert forall i :: 0 <= i < |s| ==> LowerChar(LowerChar(s[i])) == LowerChar(s[i]);
  }

  /** The first position at or after i that does not hold whitespace, or
      the end of s. */
  function SkipSpace(s: string, i: nat): (e: nat)
    requires i <= |s|
    ensures i <= e <= |s| && (e < |s| ==> !IsSpace(s[e]))
    ensures forall k :: i <= k < e ==> IsSpace(s[k])
    decreases |s| - i
  {
    if i < |s| && IsSpace(s[i]) then SkipSpace(s, i + 1) else i
  }

  /** The position after the last character before j that does not hold
      whitespace, or lo when there is none from lo on. */
  function SkipSpaceBack(s: string, lo: nat, j: nat): (e: nat)
    requires lo <= j <= |s|
    ensures lo <= e <= j && (lo < e ==> !IsSpace(s[e - 1]))
    ensures forall k :: e <= k < j ==> IsSpace(s[k])
  {
    if lo < j && IsSpace(s[j - 1]) then SkipSpaceBack(s, lo, j - 1) else j
  }

  /** `s.strip()`: the whitespace at both ends removed. */
  function Strip(s: string): (r: string)
    ensures exists i, j :: (0 <= i <= j <= |s| && r == s[i..j]
      && (forall k :: 0 <= k < i ==> IsSpace(s[k]))
      && (forall k :: j <= k < |s| ==> IsSpace(s[k])))
    ensures r != [] ==> !IsSpace(r[0]) && !IsSpace(r[|r| - 1])
  {
    var i := SkipSpace(s, 0);
    var j := SkipSpaceBack(s, i, |s|);
    s[i..j]
  }

  // ---------------------------------------------------------------------------
  // The regex `\b(fold|check|bet|raise)\b`

  /** `\b` at position p: a word character on exactly one side of it, the
      ends of the text counting as non-word. */
  predicate Boundary(s: string, p: nat)
    requires p <= |s|
  {
    (0 < p && IsWordChar(s[p - 1])) != (p < |s| && IsWordChar(s[p]))
  }

  /** w occurs in s at position p. */
  predicate At(s: string, p: nat, w: string) {
    p + |w| <= |s| && s[p..p + |w|] == w
  }

  /** w occurs in s at position p as a whole word. */
  predicate WholeWordAt(s: string, p: nat, w: string)
    requires p <= |s|
  {
    At(s, p, w) && Boundary(s, p) && Boundary(s, p + |w|)
  }

  /** The first of the alternatives ws that matches at p. */
  function FirstAlternative(s: string, p: nat, ws: seq<string>): (r: Option<string>)
    requires p <= |s|
    ensures r.Some? ==> r.value in ws && WholeWordAt(s, p, r.value)
    ensures r.None? ==> forall w :: w in ws ==> !WholeWordAt(s, p, w)
  {
    if ws == [] then None
    else if WholeWordAt(s, p, ws[0]) then Some(ws[0])
    else FirstAlternative(s, p, ws[1..])
  }

  /** The regex tried at position p: the first action that occurs there as
      a whole word. */
  function MatchAt(s: string, p: nat): (r: Option<string>)
    requires p <= |s|
  {
    FirstAlternative(s, p, ACTIONS)
  }

  /** A match at p is an action occurring there as a whole word, and there
      is none exactly when no action occurs there as a whole word. */
  lemma MatchAtSpec(s: string, p: nat)
    requires p <= |s|
    ensures MatchAt(s, p).Some? ==> IsAction(MatchAt(s, p).value) && WholeWordAt(s, p, MatchAt(s, p).value)
    ensures MatchAt(s, p).None? <==> forall w :: IsAction(w) ==> !WholeWordAt(s, p, w)
  {
    var r := MatchAt(s, p);
    if r.Some? {
      assert r.value in ACTIONS;
    } else {
      forall w | IsAction(w) ensures !WholeWordAt(s, p, w) {
        assert w in ACTIONS;
      }
    }
  }

  /** `re.search`: the regex tried at p, p + 1, ... up to the end of the
      text; the first position where it matches and what it matched. */
  function Search(s: string, p: nat): (r: Option<(nat, string)>)
    requires p <= |s|
    ensures r.Some? ==> (p <= r.value.0 <= |s| && MatchAt(s, r.value.0) == Some(r.value.1)
      && forall q :: p <= q < r.value.0 ==> MatchAt(s, q).None?)
    ensures r.None? ==> forall q :: p <= q <= |s| ==> MatchAt(s, q).None?
    decreases |s| - p
  {
    match MatchAt(s, p)
    case Some(w) => Some((p, w))
    case None => if p == |s| then None else Search(s, p + 1)
  }

  // ---------------------------------------------------------------------------
  // sanitize_decision (ollama_integration.py:44-63)

  /** `sanitize_decision(decision)`: the action the search finds in the
      lowercased text, "check" when it finds none. */
  function SanitizeDecision(decision: string): (r: string)
    ensures IsAction(r)
  {
    match Search(Lower(decision), 0)
    case Some((_, w)) =>
      MatchAtSpec(Lower(decision), Search(Lower(decision), 0).value.0);
      w
    case None => CHECK
  }

  /** The answer is the action occurring as a whole word at the earliest
      position of the lowercased text; with no such occurrence it is
      "check". */
  lemma SanitizeEarliest(decision: string)
    ensures var s := Lower(decision);
      (exists p :: 0 <= p <= |s| && WholeWordAt(s, p, SanitizeDecision(decision))
         && forall q, w :: 0 <= q < p && IsAction(w) ==> !WholeWordAt(s, q, w))
      || (SanitizeDecision(decision) == CHECK
         && forall q, w :: 0 <= q <= |s| && IsAction(w) ==> !WholeWordAt(s, q, w))
  {
    var s := Lower(decision);
    match Search(s, 0)
    case Some((p, w)) =>
      MatchAtSpec(s, p);
      forall q, w' | 0 <= q < p && IsAction(w') ensures !WholeWordAt(s, q, w') {
        MatchAtSpec(s, q);
      }
    case None =>
      forall q, w' | 0 <= q <= |s| && IsAction(w') ensures !WholeWordAt(s, q, w') {
        MatchAtSpec(s, q);
      }
  }

  /** Case does not matter: the text is lowercased before the search. */
  lemma SanitizeIgnoresCase(decision: string)
    ensures SanitizeDecision(Lower(decision)) == SanitizeDecision(decision)
  {
    LowerIdempotent(decision);
  }

  /** A word that merely starts with an action is not that action:
      "better" holds no whole-word action, so it reads as "check". */
  lemma SanitizeBetter()
    ensures SanitizeDecision("better") == CHECK
  {
    var s := Lower("better");
    assert s == "better";
    forall q: nat, w | q <= |s| && IsAction(w) ensures !WholeWordAt(s, q, w) {
      if 0 < q < |s| {
        assert IsWordChar(s[q - 1]) && IsWordChar(s[q]);
      } else if q == 0 && w == BET {
        assert IsWordChar(s[2]) && IsWordChar(s[3]);
      }
    }
    SanitizeEarliest("better");
  }

  /** The action is found whatever its case, and the first one counts. */
  lemma SanitizeFirstWord()
    ensures SanitizeDecision("Bet, or fold") == BET
  {
    var s := Lower("Bet, or fold");
    assert s[..3] == "bet" && s[3] == ',';
    assert WholeWordAt(s, 0, BET);
    SanitizeEarliest("Bet, or fold");
  }

  // ---------------------------------------------------------------------------
  // get_poker_compatible_model (ollama_integration.py:28-42)

  const DEFAULT_MODEL := "llama3:latest"

  /** `sub in s` for strings: sub at the front, or further on. */
  function Contains(s: string, sub: string): bool
    decreases |s|
  {
    if |s| < |sub| then false
    else if s[..|sub|] == sub then true
    else Contains(s[1..], sub)
  }

  /** `sub in s` holds exactly when sub occurs at some position of s. */
  lemma {:induction false} ContainsIff(s: string, sub: string)
    ensures Contains(s, sub) <==> exists i: nat :: At(s, i, sub)
    decreases |s|
  {
    if |s| < |sub| {
    } else if s[..|sub|] == sub {
      assert At(s, 0, sub);
    } else {
      ContainsIff(s[1..], sub);
      if Contains(s, sub) {
        var i: nat :| At(s[1..], i, sub);
        assert s[1..][i..i + |sub|] == s[i + 1..i + 1 + |sub|];
        assert At(s, i + 1, sub);
      } else {
        forall i: nat | At(s, i, sub) ensures false {
          assert i != 0;
          assert s[1..][i - 1..i - 1 + |sub|] == s[i..i + |sub|];
          assert At(s[1..], i - 1, sub);
        }
      }
    }
  }

  /** A name the game prefers: it contains "llama3", "command-r" or "qwen". */
  predicate IsPokerModel(m: string) {
    Contains(m, "llama3") || Contains(m, "command-r") || Contains(m, "qwen")
  }

  /** `get_poker_compatible_model()` over the names the server listed: the
      first preferred name, else "llama3:latest"; either way a preferred
      name. */
  method GetPokerCompatibleModel(models: seq<string>) returns (m: string)
    ensures IsPokerModel(m)
    ensures (exists i :: 0 <= i < |models| && m == models[i] && IsPokerModel(m)
               && forall j :: 0 <= j < i ==> !IsPokerModel(models[j]))
      || (m == DEFAULT_MODEL && forall j :: 0 <= j < |models| ==> !IsPokerModel(models[j]))
  {
    for i := 0 to |models|
      invariant forall j :: 0 <= j < i ==> !IsPokerModel(models[j])
    {
      if Contains(models[i], "llama3") || Contains(models[i], "command-r") || Contains(models[i], "qwen") {
        return models[i];
      }
    }
    assert DEFAULT_MODEL[..6] == "llama3";
    return DEFAULT_MODEL;
  }

  // ---------------------------------------------------------------------------
  // get_ai_decision (ollama_integration.py:65-114)

  /** What one request to the chat endpoint comes to: a `RequestException`
      (the connection, an HTTP error status, a body that is not JSON), or the
      message content, "" when the reply has none. */
  datatype Reply = Failure | Answer(content: string)

  /** `get_ai_decision(...)` with `post(k)` the outcome of the k-th
      request: a failed request folds, an answer is stripped, lowercased and
      sanitized, and since sanitizing always yields an action the first
      answer is the decision; with no attempt at all it folds. */
  method GetAiDecision(models: seq<string>, post: nat -> Reply, maxRetries: nat) returns (d: string)
    ensures IsAction(d)
    ensures maxRetries == 0 ==> d == FOLD
    ensures 0 < maxRetries && post(0).Failure? ==> d == FOLD
    ensures 0 < maxRetries && post(0).Answer? ==> d == SanitizeDecision(Lower(Strip(post(0).content)))
  {
    var modelName := GetPokerCompatibleModel(models);
    for attempt := 0 to maxRetries
      invariant attempt == 0
    {
      var reply := post(attempt);
      if reply.Failure? {
        return FOLD;
      }
      var decision := Lower(Strip(reply.content));
      var validAction := SanitizeDecision(decision);
      if IsAction(validAction) {
        return validAction;
      }
      assert false;
    }
    return FOLD;
  }
}
