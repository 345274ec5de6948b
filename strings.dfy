/** String primitives of JavaScript (`indexOf`, `lastIndexOf`, `startsWith`, `includes`,
    `replace` with a string pattern, `replace(/\t/g, "  ")`) over `seq<char>`. */
module Strings {
  import opened Wrappers

  predicate StartsWith(s: string, prefix: string) {
    |prefix| <= |s| && s[..|prefix|] == prefix
  }

  /** `pat` occurs in `s` starting at index `i`. */
  predicate OccursAt(s: string, pat: string, i: nat) {
    i + |pat| <= |s| && s[i..i + |pat|] == pat
  }

  ghost predicate Contains(s: string, pat: string) {
    exists i: nat :: OccursAt(s, pat, i)
  }

  /** `s.indexOf(pat, from)`: the first occurrence at or after `from`. */
  function IndexOf(s: string, pat: string, from: nat): (r: Option<nat>)
    ensures r.Some? ==> from <= r.value && OccursAt(s, pat, r.value)
    ensures r.Some? ==> forall j: nat :: from <= j < r.value ==> !OccursAt(s, pat, j)
    ensures r.None? ==> forall j: nat :: from <= j ==> !OccursAt(s, pat, j)
    decreases |s| - from
  {
    if from + |pat| > |s| then None
    else if s[from..from + |pat|] == pat then Some(from)
    else IndexOf(s, pat, from + 1)
  }

  /** `s.includes(pat)`. */
  function Includes(s: string, pat: string): (r: bool)
    ensures r <==> Contains(s, pat)
  {
    var k := IndexOf(s, pat, 0);
    if k.Some? then true
    else
      assert forall i: nat :: !OccursAt(s, pat, i);
      false
  }

  /** `s.lastIndexOf(c, from)` for a one-character pattern: the last index at or before `from`
      holding `c`, or -1. */
  function LastIndexOfChar(s: string, c: char, from: nat): (r: int)
    requires from < |s|
    ensures -1 <= r <= from
    ensures r >= 0 ==> s[r] == c
    ensures forall j :: r < j <= from ==> s[j] != c
  {
    if s[from] == c then from
    else if from == 0 then -1
    else LastIndexOfChar(s, c, from - 1)
  }

  /** `s.replace(pat, rep)` with a string pattern, `rep` taken literally: only the first
      occurrence is replaced. */
  function ReplaceFirst(s: string, pat: string, rep: string): (r: string)
    ensures IndexOf(s, pat, 0).None? ==> r == s
    ensures IndexOf(s, pat, 0).Some? ==>
      var i := IndexOf(s, pat, 0).value; r == s[..i] + rep + s[i + |pat|..]
  {
    match IndexOf(s, pat, 0)
    case None => s
    case Some(i) => s[..i] + rep + s[i + |pat|..]
  }

  /** `s.replace(/\t/g, "  ")`. */
  function ReplaceTabs(s: string): (r: string)
    ensures '\t' !in r
    ensures forall c :: c != '\t' && c != ' ' ==> (c in r <==> c in s)
  {
    if s == [] then []
    else (if s[0] == '\t' then "  " else [s[0]]) + ReplaceTabs(s[1..])
  }

  lemma {:induction false} ReplaceTabsAppend(a: string, b: string)
    ensures ReplaceTabs(a + b) == ReplaceTabs(a) + ReplaceTabs(b)
  {
    if a == [] {
      assert a + b == b;
    } else {
      assert (a + b)[1..] == a[1..] + b;
      ReplaceTabsAppend(a[1..], b);
    }
  }

  lemma {:induction false} ReplaceTabsNoTab(s: string)
    requires '\t' !in s
    ensures ReplaceTabs(s) == s
  {
    if s != [] {
      ReplaceTabsNoTab(s[1..]);
    }
  }

  /** JavaScript's `GetSubstitution` for a string pattern (no capture groups): in the
      replacement text `$$` stands for `$`, `$&` for the matched text, `` $` `` for the text
      before the match and `$'` for the text after it; any other `$` is kept as written. */
  function Substitute(rep: string, matched: string, before: string, after: string): (r: string)
    ensures '$' !in rep ==> r == rep
  {
    if rep == [] then []
    else if rep[0] != '$' || |rep| == 1 then [rep[0]] + Substitute(rep[1..], matched, before, after)
    else if rep[1] == '$' then "$" + Substitute(rep[2..], matched, before, after)
    else if rep[1] == '&' then matched + Substitute(rep[2..], matched, before, after)
    else if rep[1] == '`' then before + Substitute(rep[2..], matched, before, after)
    else if rep[1] == '\'' then after + Substitute(rep[2..], matched, before, after)
    else "$" + Substitute(rep[1..], matched, before, after)
  }

  /** `s.replace(pat, rep)` as JavaScript evaluates it, `$`-patterns of `rep` included. */
  function ReplaceFirstExpanding(s: string, pat: string, rep: string): (r: string)
    ensures '$' !in rep ==> r == ReplaceFirst(s, pat, rep)
    ensures IndexOf(s, pat, 0).None? ==> r == s
  {
    match IndexOf(s, pat, 0)
    case None => s
    case Some(i) => s[..i] + Substitute(rep, pat, s[..i], s[i + |pat|..]) + s[i + |pat|..]
  }

  /** A replacement text holding `$$` does not come out as written when the pattern occurs:
      the pair collapses to a single `$`. */
  lemma DoubleDollarCollapses(s: string, pat: string, pre: string, post: string)
    requires IndexOf(s, pat, 0).Some?
    requires '$' !in pre && '$' !in post
    ensures ReplaceFirstExpanding(s, pat, pre + "$$" + post) == ReplaceFirst(s, pat, pre + "$" + post)
    ensures ReplaceFirstExpanding(s, pat, pre + "$$" + post) != ReplaceFirst(s, pat, pre + "$$" + post)
  {
    var i := IndexOf(s, pat, 0).value;
    SubstituteLiteralPrefix(pre, "$$" + post, pat, s[..i], s[i + |pat|..]);
    assert ("$$" + post)[2..] == post;
    assert pre + "$$" + post == pre + ("$$" + post);
    assert pre + "$" + post == pre + ("$" + post);
    var a := ReplaceFirstExpanding(s, pat, pre + "$$" + post);
    var b := ReplaceFirst(s, pat, pre + "$$" + post);
    assert |a| + 1 == |b|;
  }

  /** A leading character other than `$` is copied as it is. */
  lemma SubstituteLiteralChar(c: char, rest: string, matched: string, before: string, after: string)
    requires c != '$'
    ensures Substitute([c] + rest, matched, before, after) == [c] + Substitute(rest, matched, before, after)
  {
    assert ([c] + rest)[1..] == rest;
  }

  lemma {:induction false} SubstituteLiteralPrefix(pre: string, rest: string, matched: string, before: string, after: string)
    requires '$' !in pre
    ensures Substitute(pre + rest, matched, before, after) == pre + Substitute(rest, matched, before, after)
  {
    if pre == [] {
      assert pre + rest == rest;
    } else {
      var c, tail := pre[0], pre[1..];
      assert pre == [c] + tail;
      calc {
        Substitute(pre + rest, matched, before, after);
        { assert pre + rest == [c] + (tail + rest); }
        Substitute([c] + (tail + rest), matched, before, after);
        { SubstituteLiteralChar(c, tail + rest, matched, before, after); }
        [c] + Substitute(tail + rest, matched, before, after);
        { SubstituteLiteralPrefix(tail, rest, matched, before, after); }
        [c] + (tail + Substitute(rest, matched, before, after));
        pre + Substitute(rest, matched, before, after);
      }
    }
  }

  /** Number of occurrences of `c` in `s`. */
  function CountChar(s: string, c: char): (n: nat)
    ensures n == 0 <==> c !in s
    ensures n <= |s|
  {
    if s == [] then 0 else (if s[0] == c then 1 else 0) + CountChar(s[1..], c)
  }

  lemma {:induction false} CountCharAppend(a: string, b: string, c: char)
    ensures CountChar(a + b, c) == CountChar(a, c) + CountChar(b, c)
  {
    if a == [] {
      assert a + b == b;
    } else {
      assert (a + b)[1..] == a[1..] + b;
      CountCharAppend(a[1..], b, c);
    }
  }

  /** Joining lines that hold no separator character with that character gives one fewer
      separator than there are lines. */
  lemma {:induction false} JoinCount(lines: seq<string>, c: char)
    requires lines != []
    requires forall k :: 0 <= k < |lines| ==> c !in lines[k]
    ensures CountChar(Join(lines, [c]), c) == |lines| - 1
  {
    if |lines| > 1 {
      JoinCount(lines[1..], c);
      CountCharAppend(lines[0], [c], c);
      CountCharAppend(lines[0] + [c], Join(lines[1..], [c]), c);
    }
  }

  /** `lines.join(sep)`. */
  function Join(lines: seq<string>, sep: string): string {
    if lines == [] then ""
    else if |lines| == 1 then lines[0]
    else lines[0] + sep + Join(lines[1..], sep)
  }
}
