/** The whole engine: from the text of a pattern to the slots of a match (cregex_parse, cregex_compile_node and
    cregex_program_run, one after the other). */
module RegexEngine {
  import opened CharClass
  import opened RegexTree
  import opened RegexParse
  import opened RegexPrint
  import opened RegexCompile
  import opened RegexRun
  import opened RegexVm
  import opened RegexSearch
  import opened RegexMachine

  /** A pattern that parses is searched for as its tree denotes. */
  lemma EngineTheorem(pattern: Text, s: Text, beyond: Char, width: nat)
    requires ParsePattern(pattern).Parsed?
    ensures var root := ParsePattern(pattern).tree;
            && Wf(root) && Runnable(Compiled(root))
            && (VmRun(Compiled(root), s, beyond, width).Hit? <==> MatchesWhereTried(root, s))
  {
    hide VmRun, Compiled, Matches, ParseFrom;
    ParsedWf(pattern, 0, 0, []);
    SearchTheorem(ParsePattern(pattern).tree, s, beyond, width);
  }

  /** Searching for the printed form of a tree finds what the tree denotes, for every tree that some text parses to. */
  lemma PrintedSearch(root: Node, s: Text, beyond: Char, width: nat)
    requires IsPattern(root)
    ensures NulFree(Print(root)) && ParsePattern(Print(root)).Parsed? && ParsePattern(Print(root)).tree == root
    ensures Wf(root) && Runnable(Compiled(root))
    ensures VmRun(Compiled(root), s, beyond, width).Hit? <==> MatchesWhereTried(root, s)
  {
    hide VmRun, Compiled, Matches, ParseFrom, Print, IsPattern;
    RoundTrip(root);
    EngineTheorem(Print(root), s, beyond, width);
  }

  /** Parses, compiles and runs a pattern. */
  method Search(pattern: Text, s: Text, beyond: Char, nmatches: nat)
    returns (ok: bool, matched: bool, slots: array<int>)
    ensures ok <==> ParsePattern(pattern).Parsed?
    ensures fresh(slots) && slots.Length == nmatches
    ensures ok ==> Wf(ParsePattern(pattern).tree) && (matched <==> MatchesWhereTried(ParsePattern(pattern).tree, s))
    ensures ok && matched && nmatches >= 2 ==>
              0 <= slots[0] <= slots[1] <= |s| && Matches(ParsePattern(pattern).tree, s, slots[0], slots[1])
    ensures ok && !matched ==> forall k | 0 <= k < nmatches :: slots[k] == NULL
  {
    hide VmRun, Compiled, Matches, ParseFrom;
    slots := new int[nmatches](_ => NULL);
    ok, matched := false, false;
    var parsed := ParsePattern(pattern);
    if !parsed.Parsed? {
      return;
    }
    ok := true;
    EngineTheorem(pattern, s, beyond, Width(nmatches));
    var program := CompileNode(parsed.tree);
    matched := RunProgram(program[..], s, beyond, slots, nmatches);
    ghost var result, width := VmRun(Compiled(parsed.tree), s, beyond, Width(nmatches)), Width(nmatches);
    if matched && nmatches >= 2 {
      SpanTheorem(parsed.tree, s, beyond, width);
      assert slots[0] == slots[..width][0] && slots[1] == slots[..width][1];
    }
    if !matched {
      assert slots[..] == slots[..width] + slots[width..];
    }
  }
}
