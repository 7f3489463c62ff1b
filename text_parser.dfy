/**
 * The dictionary-term tokenizer: a character trie over the dictionary's terms
 * and a maximum-munch scan that splits prose into recognised terms and runs of
 * plain text.
 *
 * Trie nodes are mutable objects in the original program. Here they live in a
 * node table owned by the trie (`TermTrie.nodes`): a reference to a node is its
 * index in that table, and the root is index 0.
 */
module TextParser {
  import opened Wrappers

  /** A parsed token: a recognised dictionary term, or a run of plain characters. */
  datatype Token = Term(value: string) | Text(value: string)

  /** One trie node: its children by character, whether a term ends here, and that term. */
  datatype TrieNode = TrieNode(children: map<char, nat>, isEnd: bool, term: Option<string>)

  const EmptyNode := TrieNode(map[], false, None)

  // ---------------------------------------------------------------------------
  // Walking the node table

  /** The child of node `n` along character `c`, if there is one. */
  function Child(nodes: seq<TrieNode>, n: nat, c: char): Option<nat>
  {
    if n < |nodes| && c in nodes[n].children && nodes[n].children[c] < |nodes|
    then Some(nodes[n].children[c])
    else None
  }

  /** The node reached by following the characters of `s` from node `n`. */
  function WalkFrom(nodes: seq<TrieNode>, n: nat, s: string): (r: Option<nat>)
    ensures r.Some? ==> r.value < |nodes|
    decreases |s|
  {
    if s == [] then (if n < |nodes| then Some(n) else None)
    else match Child(nodes, n, s[0])
      case None => None
      case Some(m) => WalkFrom(nodes, m, s[1..])
  }

  /** A walk can be extended one character at a time, as the scan in `Parse` does. */
  lemma {:induction false} WalkSnoc(nodes: seq<TrieNode>, n: nat, p: string, c: char)
    ensures WalkFrom(nodes, n, p + [c]) ==
              match WalkFrom(nodes, n, p)
              case None => None
              case Some(m) => Child(nodes, m, c)
    decreases |p|
  {
    if p == [] {
      assert p + [c] == [c];
      assert [c][1..] == [];
    } else {
      assert (p + [c])[0] == p[0];
      assert (p + [c])[1..] == p[1..] + [c];
      match Child(nodes, n, p[0])
      case None =>
      case Some(m) => WalkSnoc(nodes, m, p[1..], c);
    }
  }

  /** Every prefix of a string that walks to a node walks to a node too. */
  lemma {:induction false} WalkPrefix(nodes: seq<TrieNode>, n: nat, s: string, k: nat)
    requires k <= |s|
    requires WalkFrom(nodes, n, s).Some?
    ensures WalkFrom(nodes, n, s[..k]).Some?
    decreases |s|
  {
    if k > 0 {
      assert s[..k][0] == s[0];
      assert s[..k][1..] == s[1..][..k - 1];
      WalkPrefix(nodes, Child(nodes, n, s[0]).value, s[1..], k - 1);
    }
  }

  /** A string with no walk has no walking extension either. */
  lemma {:induction false} WalkNoneExtends(nodes: seq<TrieNode>, n: nat, p: string, q: string)
    requires WalkFrom(nodes, n, p) == None
    ensures WalkFrom(nodes, n, p + q) == None
    decreases |p|
  {
    if p == [] {
      assert p + q == q;
    } else {
      assert (p + q)[0] == p[0] && (p + q)[1..] == p[1..] + q;
      match Child(nodes, n, p[0])
      case None =>
      case Some(m) => WalkNoneExtends(nodes, m, p[1..], q);
    }
  }

  // ---------------------------------------------------------------------------
  // Trie invariant

  /**
   * The node table is a trie spelling `paths`: the root spells the empty
   * string, each edge appends its character, a node is an end node exactly
   * when it carries its own spelling as its term and that spelling is an
   * inserted term, and every inserted term walks to an end node.
   */
  ghost predicate WellFormed(nodes: seq<TrieNode>, paths: seq<string>, terms: set<string>)
  {
    Edges(nodes, paths) &&
    (forall n :: 0 <= n < |nodes| ==> Payload(nodes[n], paths[n], terms)) &&
    (forall t {:trigger EndsAt(nodes, t)} :: t in terms ==> EndsAt(nodes, t))
  }

  ghost predicate Edges(nodes: seq<TrieNode>, paths: seq<string>)
  {
    |nodes| > 0 && |paths| == |nodes| && paths[0] == [] &&
    forall n, c :: 0 <= n < |nodes| && c in nodes[n].children ==>
      nodes[n].children[c] < |nodes| && paths[nodes[n].children[c]] == paths[n] + [c]
  }

  ghost predicate Payload(node: TrieNode, path: string, terms: set<string>)
  {
    node.term == (if node.isEnd then Some(path) else None) &&
    (node.isEnd ==> path in terms)
  }

  /** Following `t` from the root reaches an end node. */
  predicate EndsAt(nodes: seq<TrieNode>, t: string)
  {
    WalkFrom(nodes, 0, t).Some? && nodes[WalkFrom(nodes, 0, t).value].isEnd
  }

  /** A walk from `n` along `s` reaches a node spelling `paths[n] + s`. */
  lemma {:induction false} WalkSpells(nodes: seq<TrieNode>, paths: seq<string>, n: nat, s: string)
    requires Edges(nodes, paths)
    requires WalkFrom(nodes, n, s).Some?
    ensures paths[WalkFrom(nodes, n, s).value] == paths[n] + s
    decreases |s|
  {
    if s != [] {
      var m := Child(nodes, n, s[0]).value;
      WalkSpells(nodes, paths, m, s[1..]);
      assert paths[n] + [s[0]] + s[1..] == paths[n] + s;
    }
  }

  /** In a well-formed trie, `s` walks to an end node exactly when `s` is an inserted term. */
  lemma EndsAtIffTerm(nodes: seq<TrieNode>, paths: seq<string>, terms: set<string>, s: string)
    requires WellFormed(nodes, paths, terms)
    ensures EndsAt(nodes, s) <==> s in terms
  {
    if EndsAt(nodes, s) {
      var n := WalkFrom(nodes, 0, s).value;
      WalkSpells(nodes, paths, 0, s);
      assert paths[n] == [] + s == s;
      assert Payload(nodes[n], paths[n], terms);
    }
  }

  /** `b` only adds nodes, edges and end flags to `a`. */
  ghost predicate Extends(a: seq<TrieNode>, b: seq<TrieNode>)
  {
    |a| <= |b| && forall n :: 0 <= n < |a| ==> NodeExtends(a[n], b[n])
  }

  ghost predicate NodeExtends(x: TrieNode, y: TrieNode)
  {
    (forall c :: c in x.children ==> c in y.children && y.children[c] == x.children[c]) &&
    (x.isEnd ==> y.isEnd && y.term == x.term)
  }

  /** Growing the trie keeps every existing walk where it was. */
  lemma {:induction false} WalkExtends(a: seq<TrieNode>, b: seq<TrieNode>, n: nat, s: string)
    requires Extends(a, b)
    requires WalkFrom(a, n, s).Some?
    ensures WalkFrom(b, n, s) == WalkFrom(a, n, s)
    decreases |s|
  {
    if s != [] {
      assert NodeExtends(a[n], b[n]);
      WalkExtends(a, b, Child(a, n, s[0]).value, s[1..]);
    }
  }

  /** Every term that ended at a node of `a` still ends there in `b`. */
  lemma EndsAtExtends(a: seq<TrieNode>, b: seq<TrieNode>, terms: set<string>)
    requires Extends(a, b)
    requires forall t :: t in terms ==> EndsAt(a, t)
    ensures forall t :: t in terms ==> EndsAt(b, t)
  {
    forall t | t in terms
      ensures EndsAt(b, t)
    {
      WalkExtends(a, b, 0, t);
      assert NodeExtends(a[WalkFrom(a, 0, t).value], b[WalkFrom(a, 0, t).value]);
    }
  }

  // ---------------------------------------------------------------------------
  // Specification of the scan

  /**
   * The length of the longest non-empty prefix of `s`, no longer than `j`,
   * that is a term; 0 when there is none.
   */
  function LongestUpTo(terms: set<string>, s: string, j: nat): (k: nat)
    requires j <= |s|
    ensures k <= j
    ensures k > 0 ==> s[..k] in terms
    ensures forall m :: k < m <= j ==> s[..m] !in terms
  {
    if j == 0 then 0
    else if s[..j] in terms then j
    else LongestUpTo(terms, s, j - 1)
  }

  /** The length of the longest non-empty term that `s` starts with; 0 when there is none. */
  function LongestMatch(terms: set<string>, s: string): (k: nat)
    ensures k <= |s|
  {
    LongestUpTo(terms, s, |s|)
  }

  /** When no prefix longer than `j` is a term, looking further changes nothing. */
  lemma {:induction false} LongestUpToSettled(terms: set<string>, s: string, j: nat, bound: nat)
    requires j <= bound <= |s|
    requires forall m :: j < m <= bound ==> s[..m] !in terms
    ensures LongestUpTo(terms, s, bound) == LongestUpTo(terms, s, j)
    decreases bound
  {
    if bound > j {
      LongestUpToSettled(terms, s, j, bound - 1);
    }
  }

  /** Adds a character at the front of a token list, joining a leading text token. */
  function PrependChar(c: char, ts: seq<Token>): seq<Token>
  {
    if ts != [] && ts[0].Text? then [Text([c] + ts[0].value)] + ts[1..]
    else [Text([c])] + ts
  }

  /** Adds a character at the end of a token list, joining a trailing text token (the scan's step on an unmatched character). */
  function AppendChar(ts: seq<Token>, c: char): seq<Token>
  {
    if ts != [] && ts[|ts| - 1].Text? then ts[|ts| - 1 := Text(ts[|ts| - 1].value + [c])]
    else ts + [Text([c])]
  }

  /** Concatenates two token lists, joining a text token at the seam. */
  function Join(a: seq<Token>, b: seq<Token>): seq<Token>
  {
    if a != [] && b != [] && a[|a| - 1].Text? && b[0].Text?
    then a[..|a| - 1] + [Text(a[|a| - 1].value + b[0].value)] + b[1..]
    else a + b
  }

  /** The tokens of `s`: the longest term at the front if there is one, else its first character as text. */
  function Tokenize(terms: set<string>, s: string): seq<Token>
    decreases |s|
  {
    if s == [] then []
    else
      var k := LongestMatch(terms, s);
      if k > 0 then [Term(s[..k])] + Tokenize(terms, s[k..])
      else PrependChar(s[0], Tokenize(terms, s[1..]))
  }

  /** The text the tokens spell. */
  function Concat(ts: seq<Token>): string
  {
    if ts == [] then [] else ts[0].value + Concat(ts[1..])
  }

  // ---------------------------------------------------------------------------
  // Reference definition: maximum-munch segmentation

  /** No non-empty prefix of `s` is a term. */
  ghost predicate NoTermAt(terms: set<string>, s: string)
  {
    forall m :: 0 < m <= |s| ==> s[..m] !in terms
  }

  /** No text token is directly followed by another text token. */
  ghost predicate Coalesced(ts: seq<Token>)
  {
    forall k :: 0 <= k < |ts| - 1 ==> !(ts[k].Text? && ts[k + 1].Text?)
  }

  /**
   * `ts` segments `s` by maximum munch: each token is a non-empty piece of `s`
   * in order; a term token is a term and no longer prefix at its position is
   * one; no term starts at any character of a text token; and a text token is
   * followed by a term token or by nothing.
   */
  ghost predicate MaxMunch(terms: set<string>, s: string, ts: seq<Token>)
    decreases |ts|
  {
    if ts == [] then s == []
    else
      var v := ts[0].value;
      0 < |v| <= |s| && s[..|v|] == v && MaxMunch(terms, s[|v|..], ts[1..]) &&
      match ts[0]
      case Term(_) =>
        v in terms && forall m :: |v| < m <= |s| ==> s[..m] !in terms
      case Text(_) =>
        (forall q :: 0 <= q < |v| ==> NoTermAt(terms, s[q..])) &&
        (|ts| > 1 ==> ts[1].Term?)
  }

  /** `Tokenize` produces a maximum-munch segmentation of its input. */
  lemma {:induction false} TokenizeIsMaxMunch(terms: set<string>, s: string)
    ensures MaxMunch(terms, s, Tokenize(terms, s))
    decreases |s|
  {
    if s != [] {
      var k := LongestMatch(terms, s);
      if k > 0 {
        TokenizeIsMaxMunch(terms, s[k..]);
        var ts := Tokenize(terms, s);
        assert ts[0].value == s[..k];
        assert ts[1..] == Tokenize(terms, s[k..]);
      } else {
        var rest := Tokenize(terms, s[1..]);
        TokenizeIsMaxMunch(terms, s[1..]);
        var ts := Tokenize(terms, s);
        assert ts == PrependChar(s[0], rest);
        assert s[0..] == s;
        assert NoTermAt(terms, s);
        if rest != [] && rest[0].Text? {
          var w := rest[0].value;
          var v := [s[0]] + w;
          assert ts[0] == Text(v) && ts[1..] == rest[1..];
          assert s[..|v|] == [s[0]] + s[1..][..|w|];
          assert s[|v|..] == s[1..][|w|..];
          forall q | 0 <= q < |v|
            ensures NoTermAt(terms, s[q..])
          {
            if q > 0 {
              assert s[q..] == s[1..][q - 1..];
            }
          }
        } else {
          assert ts[0] == Text([s[0]]) && ts[1..] == rest;
          assert s[..1] == [s[0]];
        }
      }
    }
  }

  /** A maximum-munch segmentation spells its text back. */
  lemma {:induction false} MaxMunchSpells(terms: set<string>, s: string, ts: seq<Token>)
    requires MaxMunch(terms, s, ts)
    ensures Concat(ts) == s
    decreases |ts|
  {
    if ts != [] {
      var v := ts[0].value;
      MaxMunchSpells(terms, s[|v|..], ts[1..]);
      assert s == s[..|v|] + s[|v|..];
    }
  }

  /** A maximum-munch segmentation never has two text tokens in a row. */
  lemma {:induction false} MaxMunchCoalesced(terms: set<string>, s: string, ts: seq<Token>)
    requires MaxMunch(terms, s, ts)
    ensures Coalesced(ts)
    decreases |ts|
  {
    if ts != [] {
      var v := ts[0].value;
      MaxMunchCoalesced(terms, s[|v|..], ts[1..]);
      forall k | 0 <= k < |ts| - 1
        ensures !(ts[k].Text? && ts[k + 1].Text?)
      {
        if k > 0 {
          assert ts[k] == ts[1..][k - 1] && ts[k + 1] == ts[1..][k];
        }
      }
    }
  }

  /** There is only one maximum-munch segmentation of a text. */
  lemma {:induction false} MaxMunchUnique(terms: set<string>, s: string, a: seq<Token>, b: seq<Token>)
    requires MaxMunch(terms, s, a) && MaxMunch(terms, s, b)
    ensures a == b
    decreases |a|
  {
    if a == [] || b == [] {
      return;
    }
    var v, w := a[0].value, b[0].value;
    if a[0].Term? != b[0].Term? {
      StartsWithTermOrNot(terms, s, a);
      StartsWithTermOrNot(terms, s, b);
      assert false;
    }
    if a[0].Term? {
      if |v| < |w| {
        assert false;
      } else if |w| < |v| {
        assert false;
      }
    } else {
      if |v| < |w| {
        TextRunEnds(terms, s, a);
        assert false;
      } else if |w| < |v| {
        TextRunEnds(terms, s, b);
        assert false;
      }
    }
    MaxMunchUnique(terms, s[|v|..], a[1..], b[1..]);
    assert a == [a[0]] + a[1..] && b == [b[0]] + b[1..];
  }

  /** A segmentation starts with a term token exactly when a term starts the text. */
  lemma StartsWithTermOrNot(terms: set<string>, s: string, a: seq<Token>)
    requires MaxMunch(terms, s, a) && a != []
    ensures a[0].Term? <==> !NoTermAt(terms, s)
  {
    var v := a[0].value;
    assert s[0..] == s;
    assert s[..|v|] == v;
  }

  /** Right after a text token that does not reach the end of the text, a term starts. */
  lemma TextRunEnds(terms: set<string>, s: string, a: seq<Token>)
    requires MaxMunch(terms, s, a) && a != [] && a[0].Text?
    requires |a[0].value| < |s|
    ensures !NoTermAt(terms, s[|a[0].value|..])
  {
    var v := a[0].value;
    var u := a[1].value;
    assert s[|v|..][..|u|] == u;
  }

  /** Concatenating the tokens gives the text back. */
  lemma TokenizeRoundTrip(terms: set<string>, s: string)
    ensures Concat(Tokenize(terms, s)) == s
  {
    TokenizeIsMaxMunch(terms, s);
    MaxMunchSpells(terms, s, Tokenize(terms, s));
  }

  /** Text in which no term starts anywhere is a single text token. */
  lemma NoTermsOneText(terms: set<string>, s: string)
    requires s != []
    requires forall q :: 0 <= q < |s| ==> NoTermAt(terms, s[q..])
    ensures Tokenize(terms, s) == [Text(s)]
  {
    assert s[..|s|] == s && s[|s|..] == [];
    assert MaxMunch(terms, s, [Text(s)]);
    TokenizeIsMaxMunch(terms, s);
    MaxMunchUnique(terms, s, Tokenize(terms, s), [Text(s)]);
  }

  /** With the terms "fire" and "firebolt", "firebolt damage" starts with the longer term. */
  lemma FireboltExample()
    ensures Tokenize({"fire", "firebolt"}, "firebolt damage") == [Term("firebolt"), Text(" damage")]
  {
    var terms := {"fire", "firebolt"};
    var s := "firebolt damage";
    var rest := " damage";
    assert s[..8] == "firebolt" && s[8..] == rest;
    forall m | 8 < m <= |s|
      ensures s[..m] !in terms
    {
      assert |s[..m]| == m;
    }
    forall q | 0 <= q < |rest|
      ensures NoTermAt(terms, rest[q..])
    {
      forall m | 0 < m <= |rest[q..]|
        ensures rest[q..][..m] !in terms
      {
        assert rest[q..][..m][0] == rest[q] != 'f';
      }
    }
    assert rest[..|rest|] == rest && rest[|rest|..] == [];
    assert MaxMunch(terms, rest, [Text(rest)]);
    var ts := [Term("firebolt"), Text(rest)];
    assert ts[1..] == [Text(rest)];
    assert MaxMunch(terms, s, ts);
    TokenizeIsMaxMunch(terms, s);
    MaxMunchUnique(terms, s, Tokenize(terms, s), ts);
  }

  /** Moving one character from the right part to the left part of a join. */
  lemma JoinAppendChar(a: seq<Token>, c: char, rest: seq<Token>)
    ensures Join(a, PrependChar(c, rest)) == Join(AppendChar(a, c), rest)
  {
    if a != [] && a[|a| - 1].Text? {
      JoinAppendCharToText(a, c, rest);
    } else {
      JoinAppendCharNewText(a, c, rest);
    }
  }

  /** The case of `JoinAppendChar` where `a` ends in a text token, which takes the character. */
  lemma JoinAppendCharToText(a: seq<Token>, c: char, rest: seq<Token>)
    requires a != [] && a[|a| - 1].Text?
    ensures Join(a, PrependChar(c, rest)) == Join(AppendChar(a, c), rest)
  {
    var u := a[|a| - 1].value;
    var b := a[..|a| - 1] + [Text(u + [c])];
    assert AppendChar(a, c) == b;
    if rest != [] && rest[0].Text? {
      assert b[..|b| - 1] == a[..|a| - 1];
      assert u + ([c] + rest[0].value) == (u + [c]) + rest[0].value;
    }
  }

  /** The case of `JoinAppendChar` where the character starts a new text token after `a`. */
  lemma JoinAppendCharNewText(a: seq<Token>, c: char, rest: seq<Token>)
    requires !(a != [] && a[|a| - 1].Text?)
    ensures Join(a, PrependChar(c, rest)) == Join(AppendChar(a, c), rest)
  {
    assert AppendChar(a, c) == a + [Text([c])];
    if rest != [] && rest[0].Text? {
      NewTextJoinsRest(a, c, rest);
    } else {
      var b := a + [Text([c])];
      assert PrependChar(c, rest) == [Text([c])] + rest;
      assert Join(a, [Text([c])] + rest) == a + ([Text([c])] + rest);
      assert Join(b, rest) == b + rest;
    }
  }

  /** The new text token takes the leading text token of `rest` with it. */
  lemma NewTextJoinsRest(a: seq<Token>, c: char, rest: seq<Token>)
    requires !(a != [] && a[|a| - 1].Text?)
    requires rest != [] && rest[0].Text?
    ensures Join(a, PrependChar(c, rest)) == Join(a + [Text([c])], rest)
  {
    var b := a + [Text([c])];
    var front := [Text([c] + rest[0].value)];
    assert PrependChar(c, rest) == front + rest[1..];
    assert Join(a, front + rest[1..]) == a + (front + rest[1..]);
    assert b[..|b| - 1] == a;
    assert Join(b, rest) == a + front + rest[1..];
  }

  // ---------------------------------------------------------------------------
  // Growing the trie

  /** The table with a fresh, empty node appended as child `c` of node `n`. */
  function AddChild(nodes: seq<TrieNode>, n: nat, c: char): seq<TrieNode>
    requires n < |nodes|
  {
    nodes[n := nodes[n].(children := nodes[n].children[c := |nodes|])] + [EmptyNode]
  }

  /** The table with node `n` marked as the end of `term`. */
  function MarkEnd(nodes: seq<TrieNode>, n: nat, term: string): seq<TrieNode>
    requires n < |nodes|
  {
    nodes[n := nodes[n].(isEnd := true, term := Some(term))]
  }

  lemma ExtendsTrans(a: seq<TrieNode>, b: seq<TrieNode>, c: seq<TrieNode>)
    requires Extends(a, b) && Extends(b, c)
    ensures Extends(a, c)
  {
    forall n | 0 <= n < |a|
      ensures NodeExtends(a[n], c[n])
    {
      assert NodeExtends(a[n], b[n]) && NodeExtends(b[n], c[n]);
    }
  }

  /** Adding a missing child keeps the trie well formed and only grows it. */
  lemma AddChildKeepsTrie(nodes: seq<TrieNode>, paths: seq<string>, terms: set<string>, n: nat, c: char)
    requires WellFormed(nodes, paths, terms)
    requires n < |nodes| && c !in nodes[n].children
    ensures WellFormed(AddChild(nodes, n, c), paths + [paths[n] + [c]], terms)
    ensures Extends(nodes, AddChild(nodes, n, c))
    ensures AddChild(nodes, n, c)[n].children[c] == |nodes|
  {
    var r := AddChild(nodes, n, c);
    var ps := paths + [paths[n] + [c]];
    forall m | 0 <= m < |nodes|
      ensures NodeExtends(nodes[m], r[m])
    {
    }
    forall m, d | 0 <= m < |r| && d in r[m].children
      ensures r[m].children[d] < |r| && ps[r[m].children[d]] == ps[m] + [d]
    {
      if m != n || d != c {
        assert m < |nodes| && d in nodes[m].children;
      }
    }
    forall m | 0 <= m < |r|
      ensures Payload(r[m], ps[m], terms)
    {
      if m < |nodes| {
        assert Payload(nodes[m], paths[m], terms);
      }
    }
    EndsAtExtends(nodes, r, terms);
  }

  /** Marking the node `term` walks to keeps the trie well formed, now holding `term`. */
  lemma MarkEndKeepsTrie(nodes: seq<TrieNode>, paths: seq<string>, terms: set<string>, term: string)
    requires WellFormed(nodes, paths, terms)
    requires WalkFrom(nodes, 0, term).Some?
    ensures var n := WalkFrom(nodes, 0, term).value;
      var r := MarkEnd(nodes, n, term);
      WellFormed(r, paths, terms + {term}) && Extends(nodes, r) &&
      WalkFrom(r, 0, term) == Some(n) &&
      (term in terms ==> r == nodes)
  {
    var n := WalkFrom(nodes, 0, term).value;
    var r := MarkEnd(nodes, n, term);
    WalkSpells(nodes, paths, 0, term);
    assert paths[n] == [] + term == term;
    if term in terms {
      EndsAtIffTerm(nodes, paths, terms, term);
      assert Payload(nodes[n], paths[n], terms);
      assert r == nodes;
    }
    forall m | 0 <= m < |nodes|
      ensures NodeExtends(nodes[m], r[m])
    {
      if m == n {
        assert Payload(nodes[n], paths[n], terms);
      }
    }
    forall m | 0 <= m < |r|
      ensures Payload(r[m], paths[m], terms + {term})
    {
      assert Payload(nodes[m], paths[m], terms);
    }
    EndsAtExtends(nodes, r, terms);
    WalkExtends(nodes, r, 0, term);
  }

  /** One more character of the scan: the walk moves to the child, which is an end node exactly for terms. */
  lemma ScanStep(nodes: seq<TrieNode>, paths: seq<string>, terms: set<string>, text: string, i: nat, j: nat, node: nat)
    requires WellFormed(nodes, paths, terms)
    requires i <= j < |text|
    requires WalkFrom(nodes, 0, text[i..j]) == Some(node) && text[j] in nodes[node].children
    ensures var child := nodes[node].children[text[j]];
      WalkFrom(nodes, 0, text[i..j + 1]) == Some(child) &&
      (nodes[child].isEnd <==> text[i..j + 1] in terms) &&
      (nodes[child].isEnd ==> nodes[child].term == Some(text[i..j + 1]))
  {
    var child := nodes[node].children[text[j]];
    WalkSnoc(nodes, 0, text[i..j], text[j]);
    assert text[i..j + 1] == text[i..j] + [text[j]];
    WalkSpells(nodes, paths, 0, text[i..j + 1]);
    assert paths[child] == [] + text[i..j + 1] == text[i..j + 1];
    EndsAtIffTerm(nodes, paths, terms, text[i..j + 1]);
    assert Payload(nodes[child], paths[child], terms);
  }

  /** Where the walk has no child for the next character, no longer prefix is a term. */
  lemma ScanStop(nodes: seq<TrieNode>, paths: seq<string>, terms: set<string>, text: string, i: nat, j: nat, node: nat)
    requires WellFormed(nodes, paths, terms)
    requires i <= j < |text|
    requires WalkFrom(nodes, 0, text[i..j]) == Some(node) && text[j] !in nodes[node].children
    ensures forall m :: j - i < m <= |text| - i ==> text[i..][..m] !in terms
  {
    var s := text[i..];
    WalkSnoc(nodes, 0, text[i..j], text[j]);
    assert text[i..j + 1] == text[i..j] + [text[j]];
    forall m | j - i < m <= |s|
      ensures s[..m] !in terms
    {
      assert s[..m] == text[i..j + 1] + s[j + 1 - i..m];
      WalkNoneExtends(nodes, 0, text[i..j + 1], s[j + 1 - i..m]);
      EndsAtIffTerm(nodes, paths, terms, s[..m]);
    }
  }

  /**
   * The scan is on track at position `i` with `tokens` emitted so far: those
   * tokens joined with the tokens of the rest of the text are the tokens of
   * the whole text.
   */
  ghost predicate OnTrack(terms: set<string>, text: string, i: nat, tokens: seq<Token>)
  {
    i <= |text| && Join(tokens, Tokenize(terms, text[i..])) == Tokenize(terms, text)
  }

  /** With nothing emitted, the scan starts on track. */
  lemma OnTrackStart(terms: set<string>, text: string)
    ensures OnTrack(terms, text, 0, [])
  {
    assert text[0..] == text;
  }

  /** At the end of the text, the emitted tokens are the tokens of the text. */
  lemma OnTrackDone(terms: set<string>, text: string, tokens: seq<Token>)
    requires OnTrack(terms, text, |text|, tokens)
    ensures tokens == Tokenize(terms, text)
  {
    assert text[|text|..] == [];
    assert Join(tokens, []) == tokens;
  }

  /** Emitting the longest term at position `i` and moving past it keeps the scan on track. */
  lemma TermStep(terms: set<string>, text: string, i: nat, k: nat, tokens: seq<Token>)
    requires OnTrack(terms, text, i, tokens)
    requires i < |text| && k == LongestMatch(terms, text[i..]) > 0
    ensures i + k <= |text|
    ensures OnTrack(terms, text, i + k, tokens + [Term(text[i..i + k])])
  {
    var s := text[i..];
    assert s[k..] == text[i + k..];
    assert s[..k] == text[i..i + k];
    assert Tokenize(terms, s) == [Term(s[..k])] + Tokenize(terms, s[k..]);
  }

  /** Adding the character at position `i` to the text and moving on keeps the scan on track. */
  lemma TextStep(terms: set<string>, text: string, i: nat, tokens: seq<Token>)
    requires OnTrack(terms, text, i, tokens)
    requires i < |text| && LongestMatch(terms, text[i..]) == 0
    ensures OnTrack(terms, text, i + 1, AppendChar(tokens, text[i]))
  {
    var s := text[i..];
    assert s[1..] == text[i + 1..];
    assert Tokenize(terms, s) == PrependChar(s[0], Tokenize(terms, s[1..]));
    JoinAppendChar(tokens, text[i], Tokenize(terms, text[i + 1..]));
  }

  // ---------------------------------------------------------------------------
  // The trie object

  class TermTrie {
    /** The node table; index 0 is the root. */
    var nodes: seq<TrieNode>
    /** The string each node spells from the root. */
    ghost var paths: seq<string>
    /** The terms inserted so far. */
    ghost var Terms: set<string>

    ghost predicate Valid()
      reads this
    {
      WellFormed(nodes, paths, Terms)
    }

    /** Builds a trie holding exactly the given terms. */
    constructor (terms: seq<string>)
      ensures Valid()
      ensures Terms == set t | t in terms
    {
      nodes := [EmptyNode];
      paths := [[]];
      Terms := {};
      new;
      var k := 0;
      while k < |terms|
        invariant 0 <= k <= |terms|
        invariant Valid()
        invariant Terms == set t | t in terms[..k]
      {
        Insert(terms[k]);
        assert terms[..k + 1] == terms[..k] + [terms[k]];
        k := k + 1;
      }
      assert terms[..|terms|] == terms;
    }

    /**
     * Walks `term` from the root, creating missing children, and marks the
     * last node as the end of `term`.
     */
    method Insert(term: string)
      requires Valid()
      modifies this
      ensures Valid()
      ensures Terms == old(Terms) + {term}
      ensures WalkFrom(nodes, 0, term).Some?
      ensures nodes[WalkFrom(nodes, 0, term).value].isEnd
      ensures nodes[WalkFrom(nodes, 0, term).value].term == Some(term)
      ensures Extends(old(nodes), nodes)
      ensures term in old(Terms) ==> nodes == old(nodes)
    {
      ghost var before := nodes;
      var node: nat := 0;
      var k := 0;
      while k < |term|
        invariant 0 <= k <= |term|
        invariant WellFormed(nodes, paths, Terms)
        invariant Terms == old(Terms)
        invariant Extends(before, nodes)
        invariant WalkFrom(nodes, 0, term[..k]) == Some(node)
        invariant term in old(Terms) ==> nodes == before
      {
        var c := term[k];
        assert term[..k + 1] == term[..k] + [c];
        if term in old(Terms) {
          assert EndsAt(nodes, term);
          WalkPrefix(nodes, 0, term, k + 1);
          WalkSnoc(nodes, 0, term[..k], c);
        }
        if c !in nodes[node].children {
          AddChildKeepsTrie(nodes, paths, Terms, node, c);
          ExtendsTrans(before, nodes, AddChild(nodes, node, c));
          WalkExtends(nodes, AddChild(nodes, node, c), 0, term[..k]);
          paths := paths + [paths[node] + [c]];
          nodes := AddChild(nodes, node, c);
        }
        WalkSnoc(nodes, 0, term[..k], c);
        node := nodes[node].children[c];
        k := k + 1;
      }
      assert term[..k] == term;
      MarkEndKeepsTrie(nodes, paths, Terms, term);
      ExtendsTrans(before, nodes, MarkEnd(nodes, node, term));
      nodes := MarkEnd(nodes, node, term);
      Terms := Terms + {term};
    }

    /**
     * The longest term that `text` has at position `i`: walks the trie along
     * the text as far as it has children, remembering the last end node seen.
     */
    method MatchAt(text: string, i: nat) returns (longestMatch: Option<string>, matchLength: nat)
      requires Valid()
      requires i <= |text|
      ensures matchLength == LongestMatch(Terms, text[i..])
      ensures longestMatch == if matchLength > 0 then Some(text[i..i + matchLength]) else None
    {
      var node: nat := 0;
      longestMatch := None;
      matchLength := 0;
      var j := i;
      while j < |text| && text[j] in nodes[node].children
        invariant i <= j <= |text|
        invariant WalkFrom(nodes, 0, text[i..j]) == Some(node)
        invariant matchLength == LongestUpTo(Terms, text[i..], j - i)
        invariant longestMatch == if matchLength > 0 then Some(text[i..i + matchLength]) else None
      {
        ScanStep(nodes, paths, Terms, text, i, j, node);
        assert text[i..][..j + 1 - i] == text[i..j + 1];
        node := nodes[node].children[text[j]];
        if nodes[node].isEnd {
          longestMatch := nodes[node].term;
          matchLength := j - i + 1;
        }
        j := j + 1;
      }
      if j < |text| {
        ScanStop(nodes, paths, Terms, text, i, j, node);
        LongestUpToSettled(Terms, text[i..], j - i, |text| - i);
      }
    }

    /**
     * Maximum-munch scan: at each position take the longest term that starts
     * there, otherwise add one character to the current text token.
     */
    method Parse(text: string) returns (tokens: seq<Token>)
      requires Valid()
      // the unique maximum-munch segmentation of `text` (TokenizeIsMaxMunch, MaxMunchUnique),
      // which spells `text` back (TokenizeRoundTrip)
      ensures tokens == Tokenize(Terms, text)
    {
      if text == [] {
        return [];
      }
      tokens := [];
      var i := 0;
      OnTrackStart(Terms, text);
      while i < |text|
        invariant i <= |text|
        invariant OnTrack(Terms, text, i, tokens)
        decreases |text| - i
      {
        var longestMatch, matchLength := MatchAt(text, i);
        assert longestMatch.Some? && longestMatch.value != [] <==> matchLength > 0;
        if longestMatch.Some? && longestMatch.value != [] {
          TermStep(Terms, text, i, matchLength, tokens);
          tokens := tokens + [Term(longestMatch.value)];
          i := i + matchLength;
        } else {
          TextStep(Terms, text, i, tokens);
          tokens := AppendChar(tokens, text[i]);
          i := i + 1;
        }
      }
      OnTrackDone(Terms, text, tokens);
    }
  }
}
