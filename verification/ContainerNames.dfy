/** The container name derived from a session id. */
module ContainerNames {

  const PREFIX := "kartograph-sticky-"
  const MAX_LENGTH := 63

  predicate Alphanumeric(c: char) {
    'a' <= c <= 'z' || 'A' <= c <= 'Z' || '0' <= c <= '9'
  }

  predicate Safe(c: char) {
    Alphanumeric(c) || c == '_' || c == '.' || c == '-'
  }

  /** Every maximal run of unsafe characters becomes one hyphen. */
  function ReplaceRuns(s: string, inRun: bool): string {
    if s == "" then ""
    else if Safe(s[0]) then [s[0]] + ReplaceRuns(s[1..], false)
    else (if inRun then "" else "-") + ReplaceRuns(s[1..], true)
  }

  function TrimLeft(s: string, chars: set<char>): string {
    if s != "" && s[0] in chars then TrimLeft(s[1..], chars) else s
  }

  function TrimRight(s: string, chars: set<char>): string {
    if s != "" && s[|s| - 1] in chars then TrimRight(s[..|s| - 1], chars) else s
  }

  const HYPHEN := {'-'}
  const MARKS := {'-', '_', '.'}

  /** Unsafe runs replaced, and hyphens stripped from either end. */
  function Cleaned(id: string): string {
    TrimRight(TrimLeft(ReplaceRuns(id, false), HYPHEN), HYPHEN)
  }

  /** `_sanitize_container_name("kartograph-sticky-", id)` */
  function ContainerName(id: string): string {
    var name := PREFIX + Cleaned(id);
    var cut := TrimRight(if |name| > MAX_LENGTH then name[..MAX_LENGTH] else name, MARKS);
    if cut == "" then PREFIX + "runtime" else cut
  }

  // ---------------------------------------------------------------- what is left of an id

  const ROOM := MAX_LENGTH - |PREFIX|

  function Cut(s: string): string {
    if |s| > ROOM then s[..ROOM] else s
  }

  /** What a name shows of an id. */
  function Core(id: string): string {
    TrimRight(Cut(Cleaned(id)), MARKS)
  }

  /** The ids that keep their spelling. */
  predicate Kept(id: string) {
    && 0 < |id| <= 45 && (forall i | 0 <= i < |id| :: Safe(id[i]))
    && id[0] != '-' && id[|id| - 1] !in {'-', '_', '.'}
  }

  predicate AllSafe(s: string) {
    forall i | 0 <= i < |s| :: Safe(s[i])
  }

  lemma {:induction false} TrimRightShape(s: string, chars: set<char>) returns (k: nat)
    ensures k <= |s| && TrimRight(s, chars) == s[..k]
    ensures k == 0 || s[k - 1] !in chars
    ensures forall i | k <= i < |s| :: s[i] in chars
    decreases |s|
  {
    if s != "" && s[|s| - 1] in chars {
      k := TrimRightShape(s[..|s| - 1], chars);
      assert s[..|s| - 1][..k] == s[..k];
    } else {
      k := |s|;
    }
  }

  lemma {:induction false} TrimLeftShape(s: string, chars: set<char>) returns (k: nat)
    ensures k <= |s| && TrimLeft(s, chars) == s[k..]
    ensures k == |s| || s[k] !in chars
    decreases |s|
  {
    if s != "" && s[0] in chars {
      k := TrimLeftShape(s[1..], chars);
      k := k + 1;
      assert s[1..][k - 1..] == s[k..];
    } else {
      k := 0;
    }
  }

  lemma {:induction false} ReplacedIsSafe(s: string, inRun: bool)
    ensures AllSafe(ReplaceRuns(s, inRun))
    decreases |s|
  {
    if s != "" {
      ReplacedIsSafe(s[1..], !Safe(s[0]));
    }
  }

  lemma {:induction false} SafeUnchanged(s: string, rest: string, inRun: bool)
    requires AllSafe(s) && s != ""
    ensures ReplaceRuns(s + rest, inRun) == s + ReplaceRuns(rest, false)
    decreases |s|
  {
    assert (s + rest)[0] == s[0] && (s + rest)[1..] == s[1..] + rest;
    if |s| > 1 {
      SafeUnchanged(s[1..], rest, false);
      assert s == [s[0]] + s[1..];
    } else {
      assert s[1..] + rest == rest && s == [s[0]];
    }
  }

  /** A core has only safe characters, starts with no hyphen and ends with no mark. */
  lemma CoreIsKept(id: string)
    ensures Core(id) == "" || Kept(Core(id))
  {
    hide Safe, ReplaceRuns, TrimLeft, TrimRight;
    var r := ReplaceRuns(id, false);
    ReplacedIsSafe(id, false);
    var a := TrimLeftShape(r, HYPHEN);
    var b := TrimRightShape(r[a..], HYPHEN);
    var cut := Cut(Cleaned(id));
    assert cut <= r[a..];
    var k := TrimRightShape(cut, MARKS);
    var core := cut[..k];
    if core != "" {
      assert core[0] == r[a] && core[|core| - 1] == cut[k - 1];
      forall i | 0 <= i < |core|
        ensures Safe(core[i])
      {
        assert core[i] == r[a + i];
      }
    }
  }

  lemma KeptIsItsCore(id: string)
    requires Kept(id)
    ensures Core(id) == id
  {
    KeptIsUnreplaced(id);
    hide ReplaceRuns, Safe;
    assert id[|id| - 1] !in HYPHEN && id[0] !in HYPHEN;
    NothingTrimmed(id, HYPHEN);
    NothingTrimmed(id, MARKS);
    hide TrimLeft, TrimRight;
  }

  lemma KeptIsUnreplaced(id: string)
    requires Kept(id)
    ensures ReplaceRuns(id, false) == id
  {
    hide Safe;
    SafeUnchanged(id, "", false);
    assert id + "" == id && ReplaceRuns("", false) == "";
  }

  lemma NothingTrimmed(s: string, chars: set<char>)
    requires s != ""
    ensures s[0] !in chars ==> TrimLeft(s, chars) == s
    ensures s[|s| - 1] !in chars ==> TrimRight(s, chars) == s
  {
  }

  /** Trimming stops inside what follows the prefix, if anything is left of it there. */
  lemma {:induction false} TrimAfterPrefix(p: string, s: string, chars: set<char>)
    ensures TrimRight(s, chars) != "" ==> TrimRight(p + s, chars) == p + TrimRight(s, chars)
    ensures TrimRight(s, chars) == "" ==> TrimRight(p + s, chars) == TrimRight(p, chars)
    decreases |s|
  {
    if s == "" {
      assert p + s == p;
    } else if s[|s| - 1] in chars {
      TrimAfterPrefix(p, s[..|s| - 1], chars);
      assert (p + s)[..|p + s| - 1] == p + s[..|s| - 1];
    }
  }

  /** The name is the prefix and the core; an id that has none is named by the bare prefix. */
  lemma NameShowsCore(id: string)
    ensures ContainerName(id) == if Core(id) == "" then PREFIX[..|PREFIX| - 1] else PREFIX + Core(id)
  {
    var name := PREFIX + Cleaned(id);
    assert (if |name| > MAX_LENGTH then name[..MAX_LENGTH] else name) == PREFIX + Cut(Cleaned(id));
    TrimAfterPrefix(PREFIX, Cut(Cleaned(id)), MARKS);
    assert TrimRight(PREFIX, MARKS) == PREFIX[..|PREFIX| - 1] by {
      assert PREFIX[|PREFIX| - 1] == '-' && PREFIX[|PREFIX| - 2] == 'y';
    }
  }

  // ---------------------------------------------------------------- which ids keep their names apart

  /** An id keeps its spelling if and only if it is safe, short enough, and neither starts with a hyphen
      nor ends with a mark. */
  lemma SpellingIsKept(id: string)
    ensures ContainerName(id) == "kartograph-sticky-" + id <==> Kept(id)
  {
    hide Kept, Core;
    NameShowsCore(id);
    CoreIsKept(id);
    if Kept(id) {
      KeptIsItsCore(id);
      assert id != "" by { KeptIsNotEmpty(id); }
    } else if ContainerName(id) == PREFIX + id && Core(id) != "" {
      Unprefix(Core(id), id);
    }
  }

  lemma KeptIsNotEmpty(id: string)
    requires Kept(id)
    ensures id != ""
  {
  }

  lemma Unprefix(a: string, b: string)
    ensures PREFIX + a == PREFIX + b <==> a == b
  {
    assert (PREFIX + a)[|PREFIX|..] == a && (PREFIX + b)[|PREFIX|..] == b;
  }

  /** Two ids share a name exactly when the same core is left of them. */
  lemma NamesMeetInCores(a: string, b: string)
    ensures ContainerName(a) == ContainerName(b) <==> Core(a) == Core(b)
  {
    hide Core, ContainerName;
    NameShowsCore(a);
    NameShowsCore(b);
    Unprefix(Core(a), Core(b));
    assert |PREFIX[..|PREFIX| - 1]| < |PREFIX|;
  }

  /** Ids that keep their spelling, ULIDs among them, have names of their own. */
  lemma KeptIdsGetDistinctNames(a: string, b: string)
    requires Kept(a) && Kept(b) && ContainerName(a) == ContainerName(b)
    ensures a == b
  {
    NamesMeetInCores(a, b);
    KeptIsItsCore(a);
    KeptIsItsCore(b);
  }

  /** Any other id shares its name: with its core, which keeps its spelling, or, if nothing is left of
      it, with every id of which nothing is left. */
  lemma OthersShareTheirNames(id: string)
    requires !Kept(id)
    ensures Core(id) != "" ==> Core(id) != id && Kept(Core(id)) && ContainerName(Core(id)) == ContainerName(id)
    ensures Core(id) == "" ==> forall other | Core(other) == "" :: ContainerName(other) == ContainerName(id)
  {
    CoreIsKept(id);
    if Core(id) != "" {
      KeptIsItsCore(Core(id));
      NamesMeetInCores(Core(id), id);
    } else {
      forall other | Core(other) == ""
        ensures ContainerName(other) == ContainerName(id)
      {
        NamesMeetInCores(other, id);
      }
    }
  }

  /** Up to a safe character, replacing goes part by part. */
  lemma {:induction false} ReplacedByParts(x: string, z: string, inRun: bool)
    requires x != "" && Safe(x[|x| - 1])
    ensures ReplaceRuns(x + z, inRun) == ReplaceRuns(x, inRun) + ReplaceRuns(z, false)
    decreases |x|
  {
    assert (x + z)[0] == x[0] && (x + z)[1..] == x[1..] + z;
    if |x| > 1 {
      ReplacedByParts(x[1..], z, !Safe(x[0]));
    } else {
      assert x[1..] + z == z;
    }
  }

  lemma {:induction false} RunSwallowed(run: string, y: string)
    requires forall i | 0 <= i < |run| :: !Safe(run[i])
    requires y == "" || Safe(y[0])
    ensures ReplaceRuns(run + y, true) == ReplaceRuns(y, false)
    decreases |run|
  {
    if run == "" {
      assert run + y == y;
    } else {
      assert (run + y)[0] == run[0] && (run + y)[1..] == run[1..] + y;
      RunSwallowed(run[1..], y);
    }
  }

  /** What stands between two safe characters, or at an end, is lost if it is unsafe: any run of unsafe characters
      gives the name that one hyphen gives. */
  lemma SomeIdsCollide(x: string, run: string, y: string)
    requires run != "" && forall i | 0 <= i < |run| :: !Safe(run[i])
    requires (x == "" || Safe(x[|x| - 1])) && (y == "" || Safe(y[0]))
    ensures x + (run + y) != x + ("-" + y) && ContainerName(x + (run + y)) == ContainerName(x + ("-" + y))
  {
    assert (x + (run + y))[|x|] == run[0] && (x + ("-" + y))[|x|] == '-';
    assert (run + y)[0] == run[0] && (run + y)[1..] == run[1..] + y && ("-" + y)[1..] == y;
    RunSwallowed(run[1..], y);
    assert ReplaceRuns(run + y, false) == ReplaceRuns("-" + y, false);
    if x == "" {
      assert x + (run + y) == run + y && x + ("-" + y) == "-" + y;
    } else {
      ReplacedByParts(x, run + y, false);
      ReplacedByParts(x, "-" + y, false);
    }
    hide ReplaceRuns;
    assert Cleaned(x + (run + y)) == Cleaned(x + ("-" + y));
  }
}
