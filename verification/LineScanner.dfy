/**
 The whole-word scanner of the isolation check. For each banned term it looks for the next
 occurrence, reports it when no word character touches it, and goes on a full term length
 further.
 */
module LineScanner {

  const BANNED_TERMS: seq<string> := ["sandbox", "sandboxed", "safe mode", "jail", "jailed", "isolate"]

  predicate IsWordChar(c: char)
  {
    'a' <= c <= 'z' || 'A' <= c <= 'Z' || '0' <= c <= '9' || c == '_'
  }

  function LowerChar(c: char): char
  {
    if 'A' <= c <= 'Z' then ((c as int) + 32) as char else c
  }

  function Lower(line: string): string
  {
    seq(|line|, i requires 0 <= i < |line| => LowerChar(line[i]))
  }

  lemma SmallLetters(c: char)
    ensures 'a' <= c <= 'z' <==> c in "abcdefghijklmnopqrstuvwxyz"
  {
    var letters := "abcdefghijklmnopqrstuvwxyz";
    if 'a' <= c <= 'z' { assert letters[c as int - 'a' as int] == c; }
  }

  lemma CapitalLetters(c: char)
    ensures 'A' <= c <= 'Z' <==> c in "ABCDEFGHIJKLMNOPQRSTUVWXYZ"
  {
    var letters := "ABCDEFGHIJKLMNOPQRSTUVWXYZ";
    if 'A' <= c <= 'Z' { assert letters[c as int - 'A' as int] == c; }
  }

  lemma OtherCharacters(c: char)
    ensures '0' <= c <= '9' || c == '_' <==> c in "0123456789_"
  {
    var others := "0123456789_";
    if '0' <= c <= '9' { assert others[c as int - '0' as int] == c; }
    if c == '_' { assert others[10] == c; }
  }

  /** The characters of a word, spelled out. */
  lemma WordCharacters(c: char)
    ensures IsWordChar(c) <==> c in "abcdefghijklmnopqrstuvwxyz" + "ABCDEFGHIJKLMNOPQRSTUVWXYZ" + "0123456789_"
  {
    SmallLetters(c);
    CapitalLetters(c);
    OtherCharacters(c);
  }

  /** The two are one character, or the small and the capital form of one letter. */
  predicate SameLetter(a: char, b: char)
  {
    || a == b
    || ('a' <= a <= 'z' && 'A' <= b <= 'Z' && a as int - 'a' as int == b as int - 'A' as int)
    || ('A' <= a <= 'Z' && 'a' <= b <= 'z' && a as int - 'A' as int == b as int - 'a' as int)
  }

  /** Folding makes two lines equal exactly when they differ in the case of letters only, and leaves no capitals. */
  lemma FoldingIgnoresCase(line: string, other: string)
    ensures Lower(line) == Lower(other) <==>
            |line| == |other| && forall i | 0 <= i < |line| :: SameLetter(line[i], other[i])
    ensures forall i | 0 <= i < |line| :: SameLetter(Lower(line)[i], line[i]) && !('A' <= Lower(line)[i] <= 'Z')
  {
    if Lower(line) == Lower(other) {
      assert |line| == |Lower(line)| == |other|;
      forall i | 0 <= i < |line| ensures SameLetter(line[i], other[i])
      {
        assert Lower(line)[i] == Lower(other)[i];
      }
    }
  }

  predicate OccursAt(text: string, term: string, i: nat)
  {
    i + |term| <= |text| && text[i..i + |term|] == term
  }

  /** An occurrence with no word character on either side. */
  predicate WholeWordAt(text: string, term: string, i: nat)
  {
    && OccursAt(text, term, i)
    && !(i > 0 && IsWordChar(text[i - 1]))
    && !(i + |term| < |text| && IsWordChar(text[i + |term|]))
  }

  /** The whole-word occurrences that begin before `n`, in order. */
  function Hits(text: string, term: string, n: nat): seq<nat>
  {
    if n == 0 then []
    else if WholeWordAt(text, term, n - 1) then Hits(text, term, n - 1) + [n - 1]
    else Hits(text, term, n - 1)
  }

  lemma {:induction false} HitsAreTheOccurrences(text: string, term: string, n: nat)
    ensures forall i: nat :: i in Hits(text, term, n) <==> i < n && WholeWordAt(text, term, i)
    ensures forall a, b | 0 <= a < b < |Hits(text, term, n)| :: Hits(text, term, n)[a] < Hits(text, term, n)[b]
  {
    if n > 0 {
      HitsAreTheOccurrences(text, term, n - 1);
      var before := Hits(text, term, n - 1);
      forall a | 0 <= a < |before| ensures before[a] < n - 1
      {
        assert before[a] in before;
      }
    }
  }

  /** The pieces of the line at the given places. */
  function Cut(line: string, at: seq<nat>, length: nat): seq<string>
    requires forall i | i in at :: i + length <= |line|
  {
    seq(|at|, k requires 0 <= k < |at| => assert at[k] in at; line[at[k]..at[k] + length])
  }

  /** The first character of the term comes nowhere else in it, so two occurrences never overlap. */
  predicate NeverOverlaps(term: string)
  {
    term != "" && forall k | 0 < k < |term| :: term[k] != term[0]
  }

  lemma OccurrencesAreApart(text: string, term: string, i: nat, j: nat)
    requires NeverOverlaps(term) && OccursAt(text, term, i) && OccursAt(text, term, j) && i < j
    ensures i + |term| <= j
  {
    assert text[j..j + |term|][0] == text[j];
  }

  /** Nothing is a whole-word occurrence between two places when nothing is an occurrence there. */
  lemma {:induction false} NoHitsBetween(text: string, term: string, m: nat, n: nat)
    requires m <= n && forall i: nat | m <= i < n :: !WholeWordAt(text, term, i)
    ensures Hits(text, term, n) == Hits(text, term, m)
  {
    if m < n { NoHitsBetween(text, term, m, n - 1); }
  }

  lemma CutLast(line: string, at: seq<nat>, i: nat, length: nat)
    requires forall k | k in at + [i] :: k + length <= |line|
    ensures (forall k | k in at :: k + length <= |line|) && i + length <= |line|
    ensures Cut(line, at + [i], length) == Cut(line, at, length) + [line[i..i + length]]
  {
    forall k | k in at ensures k + length <= |line| { assert k in at + [i]; }
    assert i in at + [i];
  }

  /** What one term contributes from the places before `n`. */
  function MatchesBefore(line: string, lower: string, term: string, n: nat): seq<string>
    requires |lower| == |line|
  {
    HitsAreTheOccurrences(lower, term, n);
    Cut(line, Hits(lower, term, n), |term|)
  }

  /** The part of the result that one term contributes. */
  function TermMatches(line: string, term: string): seq<string>
  {
    MatchesBefore(line, Lower(line), term, |line|)
  }

  function AllMatches(line: string, terms: seq<string>): seq<string>
  {
    if terms == [] then []
    else AllMatches(line, terms[..|terms| - 1]) + TermMatches(line, terms[|terms| - 1])
  }

  /** The first occurrence from a place on. */
  method IndexOf(text: string, term: string, from: nat) returns (at: int)
    requires from <= |text|
    ensures at == -1 ==> forall i: nat | i >= from :: !OccursAt(text, term, i)
    ensures at != -1 ==>
              at >= from && OccursAt(text, term, at) && forall i: nat | from <= i < at :: !OccursAt(text, term, i)
  {
    at := from;
    while at + |term| <= |text|
      invariant at >= from && forall i: nat | from <= i < at :: !OccursAt(text, term, i)
    {
      if text[at..at + |term|] == term { return; }
      at := at + 1;
    }
    at := -1;
  }

  lemma HitStep(text: string, term: string, from: nat, at: nat)
    requires NeverOverlaps(term) && from <= at && OccursAt(text, term, at)
    requires forall i: nat | from <= i < at :: !OccursAt(text, term, i)
    ensures Hits(text, term, at + |term|) == Hits(text, term, from) + (if WholeWordAt(text, term, at) then [at] else [])
  {
    NoHitsBetween(text, term, from, at);
    NoneInside(text, term, at);
    NoHitsBetween(text, term, at + 1, at + |term|);
  }

  lemma NoneInside(text: string, term: string, at: nat)
    requires NeverOverlaps(term) && OccursAt(text, term, at)
    ensures forall i: nat | at < i < at + |term| :: !WholeWordAt(text, term, i)
  {
    forall i: nat | at < i < at + |term| ensures !WholeWordAt(text, term, i)
    {
      if OccursAt(text, term, i) { OccurrencesAreApart(text, term, at, i); }
    }
  }

  lemma MatchStep(line: string, lower: string, term: string, from: nat, at: nat)
    requires |lower| == |line| && NeverOverlaps(term) && from <= at && OccursAt(lower, term, at)
    requires forall i: nat | from <= i < at :: !OccursAt(lower, term, i)
    ensures MatchesBefore(line, lower, term, at + |term|) ==
              MatchesBefore(line, lower, term, from)
                + (if WholeWordAt(lower, term, at) then [line[at..at + |term|]] else [])
  {
    HitStep(lower, term, from, at);
    HitsAreTheOccurrences(lower, term, at + |term|);
    if WholeWordAt(lower, term, at) {
      CutLast(line, Hits(lower, term, from), at, |term|);
    }
  }

  method FindTerm(line: string, term: string) returns (matches: seq<string>)
    requires NeverOverlaps(term)
    ensures matches == TermMatches(line, term)
  {
    var lower := Lower(line);
    matches := [];
    var searchFrom := 0;
    while searchFrom < |lower|
      invariant searchFrom <= |lower|
      invariant matches == MatchesBefore(line, lower, term, searchFrom)
    {
      var foundAt := IndexOf(lower, term, searchFrom);
      if foundAt == -1 {
        NoHitsBetween(lower, term, searchFrom, |lower|);
        return;
      }
      MatchStep(line, lower, term, searchFrom, foundAt);
      var afterIndex := foundAt + |term|;
      if !(foundAt > 0 && IsWordChar(lower[foundAt - 1])) && !(afterIndex < |lower| && IsWordChar(lower[afterIndex])) {
        matches := matches + [line[foundAt..afterIndex]];
      }
      searchFrom := afterIndex;
    }
  }

  lemma TermsNeverOverlap()
    ensures forall term | term in BANNED_TERMS :: NeverOverlaps(term)
  {
  }

  method FindLineMatches(line: string) returns (matches: seq<string>)
    ensures matches == AllMatches(line, BANNED_TERMS)
  {
    matches := [];
    TermsNeverOverlap();
    for t := 0 to |BANNED_TERMS|
      invariant matches == AllMatches(line, BANNED_TERMS[..t])
    {
      assert BANNED_TERMS[..t + 1][..t] == BANNED_TERMS[..t] && BANNED_TERMS[t] in BANNED_TERMS;
      var found := FindTerm(line, BANNED_TERMS[t]);
      matches := matches + found;
    }
    assert BANNED_TERMS[..|BANNED_TERMS|] == BANNED_TERMS;
  }

  /** A place is the whole-word occurrence of at most one banned term, so nothing is reported for two terms at once. */
  lemma OneTermPerPlace(text: string, s: string, t: string, i: nat)
    requires s in BANNED_TERMS && t in BANNED_TERMS
    requires WholeWordAt(text, s, i) && WholeWordAt(text, t, i)
    ensures s == t
  {
    if |s| < |t| {
      LongerTermTouches(text, s, t, i);
    } else if |t| < |s| {
      LongerTermTouches(text, t, s, i);
    }
  }

  lemma LongerTermTouches(text: string, s: string, t: string, i: nat)
    requires s in BANNED_TERMS && t in BANNED_TERMS && |s| < |t|
    requires OccursAt(text, s, i) && OccursAt(text, t, i)
    ensures !WholeWordAt(text, s, i)
  {
    assert text[i + |s|] == text[i..i + |t|][|s|] == t[|s|];
    assert text[i..i + |s|] == text[i..i + |t|][..|s|];
    LongerTermGoesOn(s, t);
  }

  lemma SixTerms(s: string)
    requires s in BANNED_TERMS
    ensures s == "sandbox" || s == "sandboxed" || s == "safe mode" || s == "jail" || s == "jailed" || s == "isolate"
  {
  }

  /** A banned term that begins with another goes on with a letter. */
  lemma LongerTermGoesOn(s: string, t: string)
    requires s in BANNED_TERMS && t in BANNED_TERMS && |s| < |t| && t[..|s|] == s
    ensures t[|s|] == 'e'
  {
    assert s[0] == t[..|s|][0] == t[0] && s[2] == t[..|s|][2] == t[2];
    SixTerms(s);
    SixTerms(t);
  }

  /** A line that yields no match holds none of the six terms as a whole word, in whatever case. */
  lemma CleanOfAllTerms(line: string, i: nat)
    requires AllMatches(line, BANNED_TERMS) == []
    ensures !WholeWordAt(Lower(line), "sandbox", i) && !WholeWordAt(Lower(line), "sandboxed", i)
    ensures !WholeWordAt(Lower(line), "safe mode", i) && !WholeWordAt(Lower(line), "jail", i)
    ensures !WholeWordAt(Lower(line), "jailed", i) && !WholeWordAt(Lower(line), "isolate", i)
  {
    NoMatchMeansClean(line, BANNED_TERMS);
    assert BANNED_TERMS[0] in BANNED_TERMS && BANNED_TERMS[1] in BANNED_TERMS && BANNED_TERMS[2] in BANNED_TERMS;
    assert BANNED_TERMS[3] in BANNED_TERMS && BANNED_TERMS[4] in BANNED_TERMS && BANNED_TERMS[5] in BANNED_TERMS;
  }

  /** A line yields no match exactly when no banned term occurs in it as a whole word. */
  lemma {:induction false} NoMatchMeansClean(line: string, terms: seq<string>)
    requires forall term | term in terms :: term != ""
    ensures AllMatches(line, terms) == [] <==> forall term, i: nat | term in terms :: !WholeWordAt(Lower(line), term, i)
  {
    if terms != [] {
      var init, last := terms[..|terms| - 1], terms[|terms| - 1];
      assert terms == init + [last];
      assert forall term | term in init :: term in terms;
      assert last in terms;
      NoMatchMeansClean(line, init);
      HitsAreTheOccurrences(Lower(line), last, |line|);
      var hits := Hits(Lower(line), last, |line|);
      assert |TermMatches(line, last)| == |hits|;
      if hits != [] { assert hits[0] in hits; }
      forall i: nat | WholeWordAt(Lower(line), last, i) ensures i in hits {}
    }
  }
}
