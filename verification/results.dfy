/**
 * The results page of the index-driven quiz: it counts the answer letters,
 * decides each of the four dichotomies E/I, S/N, T/F, J/P by majority with the
 * first-listed pole winning ties, joins the four picks into a personality key
 * and looks that key up in the static results table, falling back to a fixed
 * "Unknown" entry when the key has no row.
 */
module Results {
  import opened Tally

  /** A row of the results table. */
  datatype Entry = Entry(
    name: string,
    summary: string,
    traits: seq<string>,
    strengths: seq<string>,
    weaknesses: seq<string>,
    mostCompatible: seq<string>,
    leastCompatible: seq<string>)

  /** What the page computes: the key and the entry shown for it. */
  datatype Profile = Profile(key: string, entry: Entry)

  /** What the page renders. */
  datatype Page = NoIdea | Shown(profile: Profile)

  /** The static results table, keyed by personality key. */
  type Table = map<string, Entry>

  /** The reserved entry for a key without a table row. */
  const Fallback := Entry("Unknown", "No summary available.", [], [], [], [], [])

  /** The four dichotomies, in the order their picks appear in the key. */
  const Dichotomies: seq<(string, string)> := [("E", "I"), ("S", "N"), ("T", "F"), ("J", "P")]

  /** The eight letters that the key can depend on. */
  const Letters: set<string> := {"E", "I", "S", "N", "T", "F", "J", "P"}

  /** One character in upper case, over ASCII. */
  function UpperChar(c: char): char {
    if 'a' <= c <= 'z' then (c as int - 32) as char else c
  }

  /** An answer in upper case, over ASCII. */
  function Upper(s: string): (r: string)
    ensures |r| == |s|
    ensures forall i :: 0 <= i < |r| ==> !('a' <= r[i] <= 'z')
    ensures forall i :: 0 <= i < |s| && !('a' <= s[i] <= 'z') ==> r[i] == s[i]
    ensures forall i :: 0 <= i < |s| && 'a' <= s[i] <= 'z' ==> r[i] as int == s[i] as int - 32
  {
    seq(|s|, i requires 0 <= i < |s| => UpperChar(s[i]))
  }

  /** Upper-casing twice is upper-casing once. */
  lemma UpperIdempotent(s: string)
    ensures Upper(Upper(s)) == Upper(s)
  {
  }

  /** Every answer upper-cased, in order: the letters the counting loop sees. */
  function UpperAll(answers: seq<string>): seq<string> {
    seq(|answers|, i requires 0 <= i < |answers| => Upper(answers[i]))
  }

  /** How often `letter` occurs among the upper-cased answers. */
  function LetterCount(answers: seq<string>, letter: string): nat {
    Count(UpperAll(answers), letter)
  }

  /** The dictionary the counting loop builds: one key per distinct upper-cased answer. */
  function Tallies(answers: seq<string>): map<string, nat> {
    map k | k in UpperAll(answers) :: LetterCount(answers, k)
  }

  /** A read of the counts dictionary, where an absent key reads as zero. */
  function Get(counts: map<string, nat>, k: string): (n: nat)
    ensures k in counts ==> n == counts[k]
    ensures n == 0 <==> k !in counts || counts[k] == 0
  {
    if k in counts then counts[k] else 0
  }

  /** The pole of a dichotomy with the higher count, the first-listed one on a tie. */
  function Pick(counts: map<string, nat>, a: string, b: string): (r: string)
    ensures r == a || r == b
    ensures r == a <==> Get(counts, a) >= Get(counts, b)
  {
    var ca := Get(counts, a);
    var cb := Get(counts, b);
    if ca == cb then a
    else if ca > cb then a else b
  }

  /** The personality key: the four picks concatenated in dichotomy order. */
  function TypeKey(counts: map<string, nat>): (r: string)
    ensures |r| == 4
  {
    Pick(counts, "E", "I") + Pick(counts, "S", "N") + Pick(counts, "T", "F") + Pick(counts, "J", "P")
  }

  /** The table row for `key`, or the fallback entry when there is none. */
  function Lookup(table: Table, key: string): (e: Entry)
    ensures key in table ==> e == table[key]
    ensures key !in table ==> e == Fallback
  {
    if key in table then table[key] else Fallback
  }

  /** The profile the page derives from its answers. */
  function Resolve(table: Table, answers: seq<string>): Profile {
    var key := TypeKey(Tallies(answers));
    Profile(key, Lookup(table, key))
  }

  /** The page: no result at all for an empty answer list. */
  function Render(table: Table, answers: seq<string>): (p: Page)
    ensures p.NoIdea? <==> answers == []
    ensures p.Shown? ==> p.profile == Resolve(table, answers)
  {
    if |answers| == 0 then NoIdea else Shown(Resolve(table, answers))
  }

  // ---------------------------------------------------------------------------
  // The imperative counting loop and the profile computation built on it.

  /** The `forEach` loop that fills the `counts` dictionary. */
  method CountLetters(answers: seq<string>) returns (counts: map<string, nat>)
    ensures counts == Tallies(answers)
  {
    counts := map[];
    var i := 0;
    while i < |answers|
      invariant 0 <= i <= |answers|
      invariant counts == Tallies(answers[..i])
    {
      var letter := Upper(answers[i]);
      TalliesSnoc(answers[..i], answers[i]);
      assert answers[..i + 1] == answers[..i] + [answers[i]];
      counts := counts[letter := Get(counts, letter) + 1];
      i := i + 1;
    }
    assert answers[..i] == answers;
  }

  /** The memoised `profile`: count, pick each dichotomy, look up with fallback. */
  method ComputeProfile(table: Table, answers: seq<string>) returns (p: Profile)
    ensures p == Resolve(table, answers)
    ensures |p.key| == 4
    ensures forall k :: 0 <= k < 4 ==> [p.key[k]] == Dichotomies[k].0 || [p.key[k]] == Dichotomies[k].1
    ensures p.key !in table ==> p.entry == Fallback
  {
    var counts := CountLetters(answers);
    var key := Pick(counts, "E", "I") + Pick(counts, "S", "N") + Pick(counts, "T", "F") + Pick(counts, "J", "P");
    var entry := if key in table then table[key] else Fallback;
    p := Profile(key, entry);
    KeyPoles(counts);
  }

  // ---------------------------------------------------------------------------
  // Properties of the counts.

  lemma UpperAllSnoc(answers: seq<string>, x: string)
    ensures UpperAll(answers + [x]) == UpperAll(answers) + [Upper(x)]
  {
  }

  lemma UpperAllConcat(a: seq<string>, b: seq<string>)
    ensures UpperAll(a + b) == UpperAll(a) + UpperAll(b)
  {
  }

  /** Reading the dictionary gives the letter's count, zero for a letter never seen. */
  lemma GetTallies(answers: seq<string>, k: string)
    ensures Get(Tallies(answers), k) == LetterCount(answers, k)
  {
  }

  /** One more answer adds one to the entry of its upper-cased form. */
  lemma TalliesSnoc(answers: seq<string>, x: string)
    ensures Tallies(answers + [x]) == Tallies(answers)[Upper(x) := Get(Tallies(answers), Upper(x)) + 1]
  {
    var u := Upper(x);
    var lhs := Tallies(answers + [x]);
    var rhs := Tallies(answers)[u := Get(Tallies(answers), u) + 1];
    UpperAllSnoc(answers, x);
    forall k
      ensures k in lhs <==> k in rhs
      ensures k in lhs ==> lhs[k] == rhs[k]
    {
      CountSnoc(UpperAll(answers), u, k);
      GetTallies(answers, k);
    }
  }

  // ---------------------------------------------------------------------------
  // Properties of the key.

  /** Character k of the key is the winning pole of dichotomy k. */
  lemma KeyPoles(counts: map<string, nat>)
    ensures |TypeKey(counts)| == 4
    ensures forall k :: 0 <= k < 4 ==>
      [TypeKey(counts)[k]] == Pick(counts, Dichotomies[k].0, Dichotomies[k].1)
  {
    var key := TypeKey(counts);
    assert [key[0]] == Pick(counts, "E", "I");
    assert [key[1]] == Pick(counts, "S", "N");
    assert [key[2]] == Pick(counts, "T", "F");
    assert [key[3]] == Pick(counts, "J", "P");
  }

  /** Tie law: equal counts select the first-listed pole. */
  lemma TieLaw(table: Table, answers: seq<string>, k: nat)
    requires k < 4
    requires LetterCount(answers, Dichotomies[k].0) == LetterCount(answers, Dichotomies[k].1)
    ensures |Resolve(table, answers).key| == 4
    ensures [Resolve(table, answers).key[k]] == Dichotomies[k].0
  {
    KeyPoles(Tallies(answers));
    GetTallies(answers, Dichotomies[k].0);
    GetTallies(answers, Dichotomies[k].1);
  }

  /** Majority law: a pole that strictly outnumbers its opposite is selected, whatever the other counts. */
  lemma MajorityLaw(table: Table, answers: seq<string>, k: nat)
    requires k < 4
    ensures |Resolve(table, answers).key| == 4
    ensures LetterCount(answers, Dichotomies[k].0) > LetterCount(answers, Dichotomies[k].1)
      ==> [Resolve(table, answers).key[k]] == Dichotomies[k].0
    ensures LetterCount(answers, Dichotomies[k].1) > LetterCount(answers, Dichotomies[k].0)
      ==> [Resolve(table, answers).key[k]] == Dichotomies[k].1
  {
    KeyPoles(Tallies(answers));
    GetTallies(answers, Dichotomies[k].0);
    GetTallies(answers, Dichotomies[k].1);
  }

  /** The key reads only the counts of the eight letters. */
  lemma KeyReadsOnlyLetters(c1: map<string, nat>, c2: map<string, nat>)
    requires forall l :: l in Letters ==> Get(c1, l) == Get(c2, l)
    ensures TypeKey(c1) == TypeKey(c2)
  {
    assert "E" in Letters && "I" in Letters && "S" in Letters && "N" in Letters;
    assert "T" in Letters && "F" in Letters && "J" in Letters && "P" in Letters;
  }

  /** Two answer lists with the same letter counts resolve identically. */
  lemma SameCountsSameProfile(table: Table, a: seq<string>, b: seq<string>)
    requires forall l :: l in Letters ==> LetterCount(a, l) == LetterCount(b, l)
    ensures Resolve(table, a) == Resolve(table, b)
  {
    forall l | l in Letters
      ensures Get(Tallies(a), l) == Get(Tallies(b), l)
    {
      GetTallies(a, l);
      GetTallies(b, l);
    }
    KeyReadsOnlyLetters(Tallies(a), Tallies(b));
  }

  /** Case-insensitivity: answers that agree up to ASCII case resolve identically. */
  lemma CaseInsensitive(table: Table, a: seq<string>, b: seq<string>)
    requires |a| == |b|
    requires forall i :: 0 <= i < |a| ==> Upper(a[i]) == Upper(b[i])
    ensures Resolve(table, a) == Resolve(table, b)
  {
    assert UpperAll(a) == UpperAll(b);
  }

  /** An answer that is not one of the eight letters, inserted anywhere, changes nothing. */
  lemma {:induction false} OtherAnswersIgnored(table: Table, answers: seq<string>, i: nat, x: string)
    requires i <= |answers|
    requires Upper(x) !in Letters
    ensures Resolve(table, answers[..i] + [x] + answers[i..]) == Resolve(table, answers)
  {
    var longer := answers[..i] + [x] + answers[i..];
    assert answers == answers[..i] + answers[i..];
    UpperAllConcat(answers[..i] + [x], answers[i..]);
    UpperAllConcat(answers[..i], [x]);
    UpperAllConcat(answers[..i], answers[i..]);
    forall l | l in Letters
      ensures LetterCount(longer, l) == LetterCount(answers, l)
    {
      var u0, u1 := UpperAll(answers[..i]), UpperAll(answers[i..]);
      CountConcat(u0 + UpperAll([x]), u1, l);
      CountConcat(u0, UpperAll([x]), l);
      CountConcat(u0, u1, l);
      assert UpperAll([x]) == [Upper(x)];
      assert Count([Upper(x)], l) == 0;
    }
    SameCountsSameProfile(table, longer, answers);
  }

  /** Upper-casing maps permutations to permutations. */
  lemma {:induction false} UpperAllPermutation(a: seq<string>, b: seq<string>)
    requires multiset(a) == multiset(b)
    ensures multiset(UpperAll(a)) == multiset(UpperAll(b))
    decreases |a|
  {
    if a != [] {
      var x := a[0];
      assert x in multiset(b);
      var j :| 0 <= j < |b| && b[j] == x;
      var rest := b[..j] + b[j + 1..];
      assert b == b[..j] + [x] + b[j + 1..];
      assert a == [x] + a[1..];
      assert multiset(b) == multiset(b[..j]) + multiset{x} + multiset(b[j + 1..]);
      assert multiset(rest) == multiset(b[..j]) + multiset(b[j + 1..]);
      assert multiset(a) == multiset{x} + multiset(a[1..]);
      assert multiset(a[1..]) == multiset(a) - multiset{x};
      assert multiset(rest) == multiset(b) - multiset{x};
      UpperAllPermutation(a[1..], rest);
      UpperAllConcat([x], a[1..]);
      UpperAllConcat(b[..j] + [x], b[j + 1..]);
      UpperAllConcat(b[..j], [x]);
      UpperAllConcat(b[..j], b[j + 1..]);
      assert UpperAll([x]) == [Upper(x)];
    } else {
      assert b == [];
    }
  }

  /** Order independence: permuting the answers does not change the profile. */
  lemma OrderIndependent(table: Table, a: seq<string>, b: seq<string>)
    requires multiset(a) == multiset(b)
    ensures Resolve(table, a) == Resolve(table, b)
  {
    UpperAllPermutation(a, b);
    forall l | l in Letters
      ensures LetterCount(a, l) == LetterCount(b, l)
    {
      CountPermutation(UpperAll(a), UpperAll(b), l);
    }
    SameCountsSameProfile(table, a, b);
  }

  /** Fallback law: a key without a row yields the "Unknown" entry, and the key is kept. */
  lemma FallbackLaw(table: Table, answers: seq<string>)
    requires TypeKey(Tallies(answers)) !in table
    ensures Resolve(table, answers).key == TypeKey(Tallies(answers))
    ensures Resolve(table, answers).entry.name == "Unknown"
    ensures Resolve(table, answers).entry.summary == "No summary available."
    ensures var e := Resolve(table, answers).entry;
      e.traits == e.strengths == e.weaknesses == e.mostCompatible == e.leastCompatible == []
  {
  }

  /** `toUpperCase` of a one-character string. */
  lemma UpperSingle(c: char)
    ensures Upper([c]) == [UpperChar(c)]
  {
  }

  /** Answers given as the eight letters are already in upper case. */
  lemma LettersAreUpper(answers: seq<string>)
    requires forall i :: 0 <= i < |answers| ==> answers[i] in Letters
    ensures UpperAll(answers) == answers
  {
    forall i | 0 <= i < |answers|
      ensures UpperAll(answers)[i] == answers[i]
    {
      UpperSingle(answers[i][0]);
      assert answers[i] == [answers[i][0]];
    }
  }

  /** For answers given as the eight letters, each count is the letter's multiplicity. */
  lemma LetterCounts(answers: seq<string>)
    requires forall i :: 0 <= i < |answers| ==> answers[i] in Letters
    ensures forall l :: Get(Tallies(answers), l) == multiset(answers)[l]
  {
    LettersAreUpper(answers);
    forall l
      ensures Get(Tallies(answers), l) == multiset(answers)[l]
    {
      GetTallies(answers, l);
      CountIsMultiplicity(answers, l);
    }
  }

  /** When no second pole outnumbers its first, the key is the four first poles. */
  lemma FirstPolesKey(counts: map<string, nat>)
    requires Get(counts, "E") >= Get(counts, "I") && Get(counts, "S") >= Get(counts, "N")
    requires Get(counts, "T") >= Get(counts, "F") && Get(counts, "J") >= Get(counts, "P")
    ensures TypeKey(counts) == "ESTJ"
  {
  }

  /** Letter answers in which no second pole outnumbers its first resolve to "ESTJ". */
  lemma FirstPolesWin(table: Table, answers: seq<string>)
    requires forall i :: 0 <= i < |answers| ==> answers[i] in Letters
    requires multiset(answers)["E"] >= multiset(answers)["I"] && multiset(answers)["S"] >= multiset(answers)["N"]
    requires multiset(answers)["T"] >= multiset(answers)["F"] && multiset(answers)["J"] >= multiset(answers)["P"]
    ensures Resolve(table, answers).key == "ESTJ"
  {
    LetterCounts(answers);
    FirstPolesKey(Tallies(answers));
  }

  /** One of each letter ties every dichotomy, and so does no letter at all. */
  lemma TiesGiveESTJ(table: Table, answers: seq<string>)
    requires answers == ["E", "I", "S", "N", "T", "F", "J", "P"] || answers == []
    ensures Resolve(table, answers).key == "ESTJ"
  {
    FirstPolesWin(table, answers);
  }

  /** Two each of E, S, T and J: the key is "ESTJ" and the entry is the table's row for it, or the fallback. */
  lemma MajorityScenario(table: Table, answers: seq<string>)
    requires answers == ["E", "E", "S", "S", "T", "T", "J", "J"]
    ensures Resolve(table, answers) == Profile("ESTJ", Lookup(table, "ESTJ"))
  {
    FirstPolesWin(table, answers);
  }
}
