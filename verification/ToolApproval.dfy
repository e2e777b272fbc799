/**
 The cache of approvals remembered for the session. It keeps composite string keys and answers
 a request by scanning them; here that scan is compared with the rule it stands for: every
 component of the requested key is covered by a remembered component of the same tool.
 */
module ToolApproval {
  import opened Texts

  datatype Scope = Exact | PathScope | PathSet

  datatype Key = Key(tool: string, approval: string)

  type Tools = map<string, Scope>

  predicate Plain(tools: Tools, tool: string)
  {
    tool !in tools || tools[tool] == Exact
  }

  /** The tool's approvals are remembered component by component. */
  predicate StoresParts(tools: Tools, tool: string)
  {
    tool in tools && tools[tool] == PathSet
  }

  function CacheKey(k: Key): string
  {
    k.tool + ":" + k.approval
  }

  /** The paths one key stands for. */
  function Components(approval: string): seq<string>
  {
    if approval == "" || approval == "." then ["."] else NonEmpty(Split(approval, '|'))
  }

  predicate Covers(approved: string, requested: string)
  {
    approved == "" || approved == "." || approved == requested || approved + "/" <= requested
  }

  // ----- What the cache stores and answers -----

  /** The approvals remembered for one granted key. */
  function Remembered(tools: Tools, k: Key): set<Key>
  {
    if StoresParts(tools, k.tool) then set c | c in Components(k.approval) :: Key(k.tool, c) else {k}
  }

  predicate CoveredByScan(entries: set<string>, tool: string, requested: string)
  {
    exists e :: e in entries && tool + ":" <= e && Covers(e[|tool| + 1..], requested)
  }

  predicate Has(tools: Tools, entries: set<string>, k: Key)
  {
    if Plain(tools, k.tool) then CacheKey(k) in entries
    else forall c | c in Components(k.approval) :: CoveredByScan(entries, k.tool, c)
  }

  function Added(tools: Tools, entries: set<string>, k: Key): set<string>
  {
    entries + set r | r in Remembered(tools, k) :: CacheKey(r)
  }

  // ----- The rule -----

  predicate CoveredByGrant(granted: set<Key>, tool: string, requested: string)
  {
    exists g :: g in granted && g.tool == tool && Covers(g.approval, requested)
  }

  predicate Allowed(tools: Tools, granted: set<Key>, k: Key)
  {
    if Plain(tools, k.tool) then k in granted
    else forall c | c in Components(k.approval) :: CoveredByGrant(granted, k.tool, c)
  }

  // ----- Runs -----

  datatype Op = Add(key: Key) | Clear

  function EntriesAfter(tools: Tools, ops: seq<Op>): set<string>
  {
    if ops == [] then {}
    else
      match ops[|ops| - 1]
      case Add(k) => Added(tools, EntriesAfter(tools, ops[..|ops| - 1]), k)
      case Clear => {}
  }

  function GrantedAfter(tools: Tools, ops: seq<Op>): set<Key>
  {
    if ops == [] then {}
    else
      match ops[|ops| - 1]
      case Add(k) => GrantedAfter(tools, ops[..|ops| - 1]) + Remembered(tools, k)
      case Clear => {}
  }

  predicate Uses(ops: seq<Op>, ids: set<string>)
  {
    forall op | op in ops :: op.Add? ==> op.key.tool in ids
  }

  /** What is granted to a tool that stores components is a component, so it has no '|' in it. */
  ghost predicate Grantable(tools: Tools, ids: set<string>, g: Key)
  {
    g.tool in ids && (StoresParts(tools, g.tool) ==> '|' !in g.approval)
  }

  lemma {:induction false} EntriesAreGrants(tools: Tools, ops: seq<Op>, ids: set<string>)
    requires Uses(ops, ids)
    ensures EntriesAfter(tools, ops) == set g | g in GrantedAfter(tools, ops) :: CacheKey(g)
    ensures forall g | g in GrantedAfter(tools, ops) :: Grantable(tools, ids, g)
  {
    if ops != [] {
      var init, last := ops[..|ops| - 1], ops[|ops| - 1];
      assert last in ops && forall op | op in init :: op in ops;
      EntriesAreGrants(tools, init, ids);
      if last.Add? {
        ComponentsAreFree(last.key.approval);
        assert forall g | g in Remembered(tools, last.key) :: Grantable(tools, ids, g);
      }
    }
  }

  lemma ComponentsAreFree(approval: string)
    ensures forall c | c in Components(approval) :: '|' !in c && c != ""
  {
    JoinSplit(approval, '|');
    NonEmptyMembers(Split(approval, '|'));
    assert forall part | part in Split(approval, '|') :: Free(part, '|');
  }

  /**
   An approval stored for `y` can answer a request for `x`: one id runs on with a colon into the other. What stands
   between must not hold a '|' when `x` asks for components, or `y` stores them, since components hold none.
   */
  predicate Clash(tools: Tools, x: string, y: string)
  {
    || (x + ":" <= y && (Plain(tools, x) || '|' !in y[|x| + 1..]))
    || (y + ":" <= x && (StoresParts(tools, y) ==> '|' !in x[|y| + 1..]))
  }

  ghost predicate Unambiguous(tools: Tools, ids: set<string>)
  {
    forall x, y | x in ids && y in ids :: !Clash(tools, x, y)
  }

  lemma ColonFreeIsUnambiguous(tools: Tools, ids: set<string>)
    requires forall id | id in ids :: ':' !in id
    ensures Unambiguous(tools, ids)
  {
    forall x, y | x in ids && y in ids ensures !Clash(tools, x, y)
    {
      PrefixMembers(x + ":", y, ':');
      PrefixMembers(y + ":", x, ':');
    }
  }

  lemma PrefixOfKey(a: string, b: string, approval: string)
    requires a + ":" <= b + ":" + approval
    ensures a == b || a + ":" <= b || b + ":" <= a
  {
    var key := b + ":" + approval;
    assert a == (a + ":")[..|a|] == key[..|a|];
    if |a| < |b| {
      assert a + ":" == key[..|a| + 1] == b[..|a| + 1];
    } else if |b| < |a| {
      assert b + ":" == key[..|b| + 1] == a[..|b| + 1];
    } else {
      assert key[..|a|] == b;
    }
  }

  /** Behind the tool's own prefix a key of the cache holds its approval. */
  lemma OwnKey(k: Key)
    ensures k.tool + ":" <= CacheKey(k) && CacheKey(k)[|k.tool| + 1..] == k.approval
  {
  }

  lemma LaterCharacters(s: string, from: nat, to: nat, c: char)
    requires from <= to <= |s| && c in s[from..to]
    ensures c in s[from..]
  {
    assert s[from..to] <= s[from..];
    PrefixMembers(s[from..to], s[from..], c);
  }

  /** When two ids do not clash, a key stored for one begins with the other's prefix only if a '|' stands behind it. */
  lemma StrangersKey(tools: Tools, x: string, g: Key)
    requires !Clash(tools, x, g.tool) && g.tool != x && x + ":" <= CacheKey(g)
    requires StoresParts(tools, g.tool) ==> '|' !in g.approval
    ensures !Plain(tools, x) && '|' in CacheKey(g)[|x| + 1..]
  {
    var y, key := g.tool, CacheKey(g);
    PrefixOfKey(x, y, g.approval);
    if x + ":" <= y {
      assert key[|x| + 1..|y|] == y[|x| + 1..];
      LaterCharacters(key, |x| + 1, |y|, '|');
    } else {
      BetweenIsApproval(x, g);
      assert false;
    }
  }

  /** Of an id that runs on into another, what stands between them is approval. */
  lemma BetweenIsApproval(x: string, g: Key)
    requires g.tool + ":" <= x && x + ":" <= CacheKey(g)
    ensures '|' in x[|g.tool| + 1..] ==> '|' in g.approval
  {
    var key, n := CacheKey(g), |g.tool| + 1;
    OwnKey(g);
    assert x == key[..|x|];
    assert x[n..] == key[n..|x|];
    if '|' in x[n..] { LaterCharacters(key, n, |x|, '|'); }
  }

  /** A key of the cache is the one asked for only if it was granted as such. */
  lemma KeyAnswersItself(tools: Tools, ids: set<string>, k: Key, g: Key)
    requires Unambiguous(tools, ids) && k.tool in ids && Grantable(tools, ids, g) && Plain(tools, k.tool)
    ensures CacheKey(g) == CacheKey(k) <==> g == k
  {
    if CacheKey(g) == CacheKey(k) {
      OwnKey(k);
      OwnKey(g);
      if g.tool != k.tool {
        assert !Clash(tools, k.tool, g.tool);
        StrangersKey(tools, k.tool, g);
        assert false;
      }
    }
  }

  /** A component is covered by keys of its own tool only. */
  lemma KeyAnswersItsTool(tools: Tools, ids: set<string>, x: string, g: Key, c: string)
    requires Unambiguous(tools, ids) && x in ids && Grantable(tools, ids, g) && '|' !in c
    ensures x + ":" <= CacheKey(g) && Covers(CacheKey(g)[|x| + 1..], c) <==> g.tool == x && Covers(g.approval, c)
  {
    OwnKey(g);
    if g.tool != x && x + ":" <= CacheKey(g) {
      var rest := CacheKey(g)[|x| + 1..];
      assert !Clash(tools, x, g.tool);
      StrangersKey(tools, x, g);
      assert '|' in rest + "/";
      PrefixMembers(rest + "/", c, '|');
    }
  }

  lemma ScanCovers(tools: Tools, ids: set<string>, granted: set<Key>, entries: set<string>, x: string, c: string)
    requires Unambiguous(tools, ids) && x in ids && '|' !in c
    requires entries == (set g | g in granted :: CacheKey(g)) && forall g | g in granted :: Grantable(tools, ids, g)
    ensures CoveredByScan(entries, x, c) == CoveredByGrant(granted, x, c)
  {
    if CoveredByScan(entries, x, c) {
      var e :| e in entries && x + ":" <= e && Covers(e[|x| + 1..], c);
      var g :| g in granted && CacheKey(g) == e;
      KeyAnswersItsTool(tools, ids, x, g, c);
    }
    if CoveredByGrant(granted, x, c) {
      var g :| g in granted && g.tool == x && Covers(g.approval, c);
      KeyAnswersItsTool(tools, ids, x, g, c);
      assert CacheKey(g) in entries;
    }
  }

  /** Over any run the scan answers as the rule does, when no two tool ids clash. */
  lemma ScanFollowsRule(tools: Tools, ops: seq<Op>, ids: set<string>, k: Key)
    requires Unambiguous(tools, ids) && Uses(ops, ids) && k.tool in ids
    ensures Has(tools, EntriesAfter(tools, ops), k) == Allowed(tools, GrantedAfter(tools, ops), k)
  {
    EntriesAreGrants(tools, ops, ids);
    var entries, granted := EntriesAfter(tools, ops), GrantedAfter(tools, ops);
    if Plain(tools, k.tool) {
      forall g | g in granted ensures CacheKey(g) == CacheKey(k) <==> g == k
      {
        KeyAnswersItself(tools, ids, k, g);
      }
    } else {
      ComponentsAreFree(k.approval);
      forall c | c in Components(k.approval)
        ensures CoveredByScan(entries, k.tool, c) == CoveredByGrant(granted, k.tool, c)
      {
        ScanCovers(tools, ids, granted, entries, k.tool, c);
      }
    }
  }

  /** Every run over some tool ids answers every request for them by the rule. */
  ghost predicate AlwaysFollowsRule(tools: Tools, ids: set<string>)
  {
    forall ops, k: Key | Uses(ops, ids) && k.tool in ids ::
      Has(tools, EntriesAfter(tools, ops), k) == Allowed(tools, GrantedAfter(tools, ops), k)
  }

  /** The cache follows the rule in every run over some tool ids exactly when no two of them clash. */
  lemma FollowsRuleExactlyWhenUnambiguous(tools: Tools, ids: set<string>)
    ensures AlwaysFollowsRule(tools, ids) <==> Unambiguous(tools, ids)
  {
    if Unambiguous(tools, ids) {
      forall ops, k: Key | Uses(ops, ids) && k.tool in ids
        ensures Has(tools, EntriesAfter(tools, ops), k) == Allowed(tools, GrantedAfter(tools, ops), k)
      {
        ScanFollowsRule(tools, ops, ids, k);
      }
    } else {
      var x, y :| x in ids && y in ids && Clash(tools, x, y);
      var ops, k := ClashLeaks(tools, x, y);
      assert Uses(ops, ids);
    }
  }

  /** Of two ids that clash, an approval given to one answers for the other. */
  lemma ClashLeaks(tools: Tools, x: string, y: string) returns (ops: seq<Op>, k: Key)
    requires Clash(tools, x, y)
    ensures Uses(ops, {y}) && k.tool == x
    ensures Has(tools, EntriesAfter(tools, ops), k) && !Allowed(tools, GrantedAfter(tools, ops), k)
  {
    var stored: Key;
    if x + ":" <= y && (Plain(tools, x) || '|' !in y[|x| + 1..]) {
      stored, k := Key(y, "x"), Key(x, y[|x| + 1..] + ":x");
      assert y == x + ":" + y[|x| + 1..];
    } else {
      stored, k := Key(y, x[|y| + 1..] + ":x"), Key(x, "x");
      assert x == y + ":" + x[|y| + 1..];
    }
    ops := [Add(stored)];
    if StoresParts(tools, y) { OneComponent(stored.approval); }
    if !Plain(tools, x) { OneComponent(k.approval); }
    OneKeyLeaks(tools, stored, k);
  }

  lemma OneKeyLeaks(tools: Tools, stored: Key, k: Key)
    requires stored.tool != k.tool && CacheKey(stored) == CacheKey(k) && Remembered(tools, stored) == {stored}
    requires !Plain(tools, k.tool) ==> Components(k.approval) == [k.approval]
    ensures Has(tools, EntriesAfter(tools, [Add(stored)]), k)
    ensures !Allowed(tools, GrantedAfter(tools, [Add(stored)]), k)
  {
    var ops := [Add(stored)];
    assert ops[..0] == [];
    assert GrantedAfter(tools, ops) == {stored};
    assert EntriesAfter(tools, ops) == {CacheKey(k)};
    OwnKey(k);
    assert CoveredByScan({CacheKey(k)}, k.tool, k.approval);
    assert !CoveredByGrant({stored}, k.tool, k.approval);
    assert !Plain(tools, k.tool) ==> k.approval in Components(k.approval);
  }

  /** One tool's id runs on with a colon into another's: what the longer is approved for, the shorter may do. */
  lemma ClashWitness()
    ensures var tools: Tools := map["fs" := Exact, "fs:write" := Exact];
            var ops, k := [Add(Key("fs:write", "x"))], Key("fs", "write:x");
            Has(tools, EntriesAfter(tools, ops), k) && !Allowed(tools, GrantedAfter(tools, ops), k)
  {
    var tools: Tools := map["fs" := Exact, "fs:write" := Exact];
    OneKeyLeaks(tools, Key("fs:write", "x"), Key("fs", "write:x"));
  }

  // ----- Keys that ask for nothing -----

  predicate OnlyBars(approval: string)
  {
    approval != "" && OnlySeparators(approval, '|')
  }

  /** Only a key of bars has no components, and with none to cover it is approved without any grant. */
  lemma NothingToGrant(tools: Tools, k: Key)
    ensures Components(k.approval) == [] <==> OnlyBars(k.approval)
    ensures Has(tools, {}, k) <==> !Plain(tools, k.tool) && OnlyBars(k.approval)
    ensures Allowed(tools, {}, k) <==> !Plain(tools, k.tool) && OnlyBars(k.approval)
  {
    NoPartsInSeparators(k.approval, '|');
    if k.approval == "." { assert k.approval[0] in k.approval; }
    var components := Components(k.approval);
    if components != [] {
      assert components[0] in components;
      assert !CoveredByScan({}, k.tool, components[0]) && !CoveredByGrant({}, k.tool, components[0]);
    }
  }

  lemma NothingToGrantWitness()
    ensures Has(map["read" := PathScope], {}, Key("read", "|"))
  {
    NothingToGrant(map["read" := PathScope], Key("read", "|"));
  }

  lemma OneComponent(approval: string)
    requires '|' !in approval && approval != "" && approval != "."
    ensures Components(approval) == [approval]
  {
    FreeSplits(approval, '|');
    assert NonEmpty([approval]) == [approval] + NonEmpty([approval][1..]);
  }

  // ----- What a key of several paths asks for and grants -----

  /** A key that spells paths with bars between them. */
  predicate Spells(approval: string, parts: seq<string>)
  {
    && parts != [] && (forall part | part in parts :: '|' !in part)
    && approval == Join(parts, '|') && approval != "" && approval != "."
  }

  lemma SpelledComponents(approval: string, parts: seq<string>)
    requires Spells(approval, parts)
    ensures forall c :: c in Components(approval) <==> c in parts && c != ""
  {
    SplitJoin(parts, '|');
    NonEmptyMembers(parts);
  }

  /** By the rule such a key is approved exactly when something granted to the tool covers each path it spells. */
  lemma SpelledKeyAllowed(tools: Tools, granted: set<Key>, k: Key, parts: seq<string>)
    requires k.tool in tools && tools[k.tool] != Exact && Spells(k.approval, parts)
    ensures Allowed(tools, granted, k) <==>
            forall part | part in parts && part != "" ::
              exists g :: g in granted && g.tool == k.tool && Covers(g.approval, part)
  {
    SpelledComponents(k.approval, parts);
    forall part ensures CoveredByGrant(granted, k.tool, part) <==>
                        exists g :: g in granted && g.tool == k.tool && Covers(g.approval, part) {}
  }

  /** For exact tools and for tools nobody has loaded only the very key granted is approved. */
  lemma ExactKeyAllowed(tools: Tools, granted: set<Key>, k: Key)
    requires k.tool in tools ==> tools[k.tool] == Exact
    ensures Allowed(tools, granted, k) <==> k in granted
  {
  }

  /** A path set remembers each path spelled and nothing else; any other tool remembers the key whole. */
  lemma SpelledKeyGrants(tools: Tools, ops: seq<Op>, k: Key, parts: seq<string>, g: Key)
    requires Spells(k.approval, parts)
    ensures g in GrantedAfter(tools, ops + [Add(k)]) <==>
            || g in GrantedAfter(tools, ops)
            || (if k.tool in tools && tools[k.tool] == PathSet
                then g.tool == k.tool && g.approval in parts && g.approval != ""
                else g == k)
  {
    SpelledComponents(k.approval, parts);
    assert (ops + [Add(k)])[..|ops|] == ops;
  }

  /** The key for the workspace root asks for the root, and a path set remembers it as such. */
  lemma RootKey(tools: Tools, granted: set<Key>, k: Key)
    requires k.approval == "" || k.approval == "."
    ensures k.tool in tools && tools[k.tool] != Exact ==>
              (Allowed(tools, granted, k) <==> exists g :: g in granted && g.tool == k.tool && Covers(g.approval, "."))
    ensures k.tool in tools && tools[k.tool] == PathSet ==> Remembered(tools, k) == {Key(k.tool, ".")}
  {
    assert Components(k.approval) == ["."];
    assert "." in Components(k.approval);
  }

  /** One path granted, of two asked for: the key is refused. */
  lemma PartlyGrantedWitness()
    ensures var tools: Tools := map["diff" := PathSet];
            !Allowed(tools, {Key("diff", "src")}, Key("diff", "src|etc"))
  {
    var tools: Tools := map["diff" := PathSet];
    var parts := ["src", "etc"];
    assert Join(parts, '|') == "src" + ['|'] + Join(["etc"], '|');
    assert parts[1..] == ["etc"];
    assert "etc" in parts && !Covers("src", "etc");
    SpelledKeyAllowed(tools, {Key("diff", "src")}, Key("diff", "src|etc"), parts);
  }

  // ----- Coverage -----

  /** Apart from the workspace root, a path covers itself and what lies under it, segment by segment. */
  lemma CoversMeansPathPrefix(approved: string, requested: string)
    ensures Covers(approved, requested) <==>
              approved == "" || approved == "." || Split(approved, '/') <= Split(requested, '/')
  {
    StartsWithPart(approved, requested, '/');
  }

  lemma CoverageIsTransitive(a: string, b: string, c: string)
    requires Covers(a, b) && Covers(b, c)
    ensures Covers(a, a) && Covers(a, c)
  {
    if a + "/" <= b {
      assert b[|a|] == (a + "/")[|a|];
      if b + "/" <= c {
        assert a + "/" <= b + "/";
      }
    }
  }

  // ----- What adding does -----

  /** Nothing once approved is refused after further approvals. */
  lemma ApprovalsAreMonotone(tools: Tools, entries: set<string>, more: set<string>, k: Key)
    requires entries <= more && Has(tools, entries, k)
    ensures Has(tools, more, k)
  {
    if !Plain(tools, k.tool) {
      forall c | c in Components(k.approval) ensures CoveredByScan(more, k.tool, c)
      {
        assert CoveredByScan(entries, k.tool, c);
        var e :| e in entries && k.tool + ":" <= e && Covers(e[|k.tool| + 1..], c);
        assert e in more;
      }
    }
  }

  /**
   A key just approved is approved, for exact tools, path sets and unknown tools. For a tool with path scope the key
   is stored whole: approving a key with '|' in it changes nothing for that key.
   */
  lemma AddedIsApproved(tools: Tools, entries: set<string>, k: Key)
    ensures Has(tools, Added(tools, entries, k), k) <==>
              (k.tool in tools && tools[k.tool] == PathScope ==> '|' !in k.approval || Has(tools, entries, k))
  {
    var more := Added(tools, entries, k);
    if Plain(tools, k.tool) {
      assert k in Remembered(tools, k);
    } else if tools[k.tool] == PathSet {
      forall c | c in Components(k.approval) ensures CoveredByScan(more, k.tool, c)
      {
        assert Key(k.tool, c) in Remembered(tools, k);
        StoredCovers(more, Key(k.tool, c), c);
      }
    } else {
      assert more == entries + {CacheKey(k)};
      if '|' !in k.approval {
        WholeKeyApproved(more, k);
      } else {
        forall c | c in Components(k.approval)
          ensures CoveredByScan(more, k.tool, c) == CoveredByScan(entries, k.tool, c)
        {
          PipedKeyCoversNothing(entries, k, c);
        }
      }
    }
  }

  /** A tool with path scope asks again for two paths that were just approved. */
  lemma WholeKeyWitness()
    ensures var tools: Tools, k := map["read" := PathScope], Key("read", "a|b"); !Has(tools, Added(tools, {}, k), k)
  {
    var tools: Tools, k := map["read" := PathScope], Key("read", "a|b");
    assert k.approval[1] == '|';
    NothingToGrant(tools, k);
    assert k.approval[0] == 'a';
    AddedIsApproved(tools, {}, k);
  }

  lemma StoredCovers(entries: set<string>, k: Key, c: string)
    requires CacheKey(k) in entries && Covers(k.approval, c)
    ensures CoveredByScan(entries, k.tool, c)
  {
    assert k.tool + ":" <= CacheKey(k) && CacheKey(k)[|k.tool| + 1..] == k.approval;
  }

  lemma WholeKeyApproved(entries: set<string>, k: Key)
    requires CacheKey(k) in entries && '|' !in k.approval
    ensures forall c | c in Components(k.approval) :: CoveredByScan(entries, k.tool, c)
  {
    if k.approval != "" && k.approval != "." { OneComponent(k.approval); }
    forall c | c in Components(k.approval) ensures CoveredByScan(entries, k.tool, c)
    {
      StoredCovers(entries, k, c);
    }
  }

  lemma PipedKeyCoversNothing(entries: set<string>, k: Key, c: string)
    requires '|' in k.approval && c in Components(k.approval)
    ensures CoveredByScan(entries + {CacheKey(k)}, k.tool, c) == CoveredByScan(entries, k.tool, c)
  {
    JoinSplit(k.approval, '|');
    NonEmptyMembers(Split(k.approval, '|'));
    assert '|' !in c;
    assert CacheKey(k)[|k.tool| + 1..] == k.approval;
    PrefixMembers(k.approval + "/", c, '|');
    if CoveredByScan(entries, k.tool, c) {
      var e :| e in entries && k.tool + ":" <= e && Covers(e[|k.tool| + 1..], c);
      assert e in entries + {CacheKey(k)};
    }
  }

  // ----- The cache -----

  class ApprovalCache {
    const tools: Tools
    var entries: set<string>
    ghost var ops: seq<Op>

    ghost predicate Valid()
      reads this
    {
      entries == EntriesAfter(tools, ops)
    }

    constructor (tools: Tools)
      ensures Valid() && this.tools == tools && ops == []
    {
      this.tools := tools;
      entries := {};
      ops := [];
    }

    method IsPathApprovalCovered(tool: string, requested: string) returns (covered: bool)
      ensures covered == CoveredByScan(entries, tool, requested)
    {
      var prefix := tool + ":";
      var rest := entries;
      while rest != {}
        invariant rest <= entries
        invariant forall e | e in entries - rest :: !(prefix <= e && Covers(e[|prefix|..], requested))
        decreases |rest|
      {
        var e :| e in rest;
        if prefix <= e {
          if Covers(e[|prefix|..], requested) { return true; }
        }
        rest := rest - {e};
      }
      return false;
    }

    method IsToolApproved(k: Key) returns (approved: bool)
      ensures approved == Has(tools, entries, k)
    {
      if Plain(tools, k.tool) { return CacheKey(k) in entries; }
      var components := Components(k.approval);
      for i := 0 to |components|
        invariant forall j | 0 <= j < i :: CoveredByScan(entries, k.tool, components[j])
      {
        var covered := IsPathApprovalCovered(k.tool, components[i]);
        if !covered {
          assert components[i] in components;
          return false;
        }
      }
      return true;
    }

    /** Answers by the rule over everything granted since the last clear. */
    method Query(k: Key, ghost ids: set<string>) returns (approved: bool)
      requires Valid() && Unambiguous(tools, ids) && Uses(ops, ids) && k.tool in ids
      ensures approved == Allowed(tools, GrantedAfter(tools, ops), k)
    {
      approved := IsToolApproved(k);
      ScanFollowsRule(tools, ops, ids, k);
    }

    /** Remembers an approval: a path set component by component, anything else whole. */
    method Remember(k: Key)
      requires Valid()
      modifies this
      ensures Valid() && ops == old(ops) + [Add(k)]
      ensures entries == Added(tools, old(entries), k)
    {
      var keys := if StoresParts(tools, k.tool) then Components(k.approval) else [k.approval];
      for i := 0 to |keys|
        invariant ops == old(ops)
        invariant entries == old(entries) + CacheKeys(k.tool, keys[..i])
      {
        assert keys[..i + 1][..i] == keys[..i];
        entries := entries + {CacheKey(Key(k.tool, keys[i]))};
      }
      assert keys[..|keys|] == keys;
      KeysRemembered(tools, k, keys);
      AddExtends(tools, ops, k);
      ops := ops + [Add(k)];
    }

    method Forget()
      modifies this
      ensures Valid() && ops == old(ops) + [Clear] && entries == {}
    {
      entries := {};
      ops := ops + [Clear];
    }
  }

  function CacheKeys(tool: string, keys: seq<string>): set<string>
  {
    if keys == [] then {} else CacheKeys(tool, keys[..|keys| - 1]) + {CacheKey(Key(tool, keys[|keys| - 1]))}
  }

  lemma {:induction false} CacheKeysAre(tool: string, keys: seq<string>)
    ensures CacheKeys(tool, keys) == set c | c in keys :: CacheKey(Key(tool, c))
  {
    if keys != [] {
      CacheKeysAre(tool, keys[..|keys| - 1]);
      assert keys == keys[..|keys| - 1] + [keys[|keys| - 1]];
    }
  }

  lemma AddExtends(tools: Tools, ops: seq<Op>, k: Key)
    ensures EntriesAfter(tools, ops + [Add(k)]) == Added(tools, EntriesAfter(tools, ops), k)
  {
    assert (ops + [Add(k)])[..|ops|] == ops;
  }

  lemma KeysRemembered(tools: Tools, k: Key, keys: seq<string>)
    requires keys == if StoresParts(tools, k.tool) then Components(k.approval) else [k.approval]
    ensures CacheKeys(k.tool, keys) == set r | r in Remembered(tools, k) :: CacheKey(r)
  {
    CacheKeysAre(k.tool, keys);
    var remembered := Remembered(tools, k);
    var stored, wanted := set c | c in keys :: CacheKey(Key(k.tool, c)), set r | r in remembered :: CacheKey(r);
    forall s | s in stored ensures s in wanted
    {
      var c :| c in keys && CacheKey(Key(k.tool, c)) == s;
      assert Key(k.tool, c) in remembered;
    }
    forall s | s in wanted ensures s in stored
    {
      var r :| r in remembered && CacheKey(r) == s;
      assert r.approval in keys;
    }
  }
}
