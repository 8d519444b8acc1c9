/**
  The code-generation scripts: `generate-api` derives the names of a new API
  from a route name, refuses to overwrite existing files, writes the new files
  and registers the new classes in the `index.ts` barrel files; `remove-api`
  asks for confirmation and deletes the same seven files.

  The barrel rewrite is modelled on the text: `export\s*{\s*([^}]*)}` is
  matched by `BlockAt` / `FirstBlock` exactly as a backtracking regex engine
  finds its leftmost match.
*/
module Scaffold {
  import opened Common
  import opened Strings

  // ---------------------------------------------------------------------------
  // Names derived from the route name
  // ---------------------------------------------------------------------------

  /** `charAt(0).toUpperCase() + slice(1).toLowerCase()`. */
  function PascalCase(name: string): (r: string)
    requires name != []
    ensures |r| == |name|
  {
    [UpperChar(name[0])] + ToLower(name[1..])
  }

  /** `charAt(0).toLowerCase() + slice(1).toLowerCase()`. */
  function CamelCase(name: string): (r: string)
    requires name != []
    ensures |r| == |name|
  {
    [LowerChar(name[0])] + ToLower(name[1..])
  }

  /** `toLowerCase()`: the file-name stem. */
  function KebabCase(name: string): (r: string)
    ensures |r| == |name|
  {
    ToLower(name)
  }

  /** The "camelCase" name is not camel case: it is the whole name lower-cased, the same as the kebab stem. */
  lemma CamelIsKebab(name: string)
    requires name != []
    ensures CamelCase(name) == KebabCase(name)
  {
    assert [name[0]] + name[1..] == name;
  }

  /** The class name and the file stem differ only in the case of their letters. */
  lemma PascalLowersToKebab(name: string)
    requires name != []
    ensures ToLower(PascalCase(name)) == KebabCase(name)
    ensures PascalCase(name)[0] == UpperChar(name[0]) && PascalCase(name)[1..] == KebabCase(name)[1..]
  {
    var p := PascalCase(name);
    assert forall i :: 0 <= i < |name| ==> LowerChar(p[i]) == LowerChar(name[i]);
  }

  /** Deriving the names again from a derived name changes nothing. */
  lemma CaseConversionsIdempotent(name: string)
    requires name != []
    ensures PascalCase(PascalCase(name)) == PascalCase(name)
    ensures KebabCase(KebabCase(name)) == KebabCase(name)
  {
    var p := PascalCase(name);
    assert p[1..] == ToLower(name[1..]);
    ToLowerIsLowerCase(name[1..]);
    ToLowerOfLowerCase(p[1..]);
    ToLowerIsLowerCase(name);
    ToLowerOfLowerCase(KebabCase(name));
  }

  // ---------------------------------------------------------------------------
  // The export-block regex  /export\s*{\s*([^}]*)}/s
  // ---------------------------------------------------------------------------

  /** `\s*` from index `j`: the first index at or after `j` that is not whitespace. */
  function SkipSpaces(s: string, j: nat): (k: nat)
    requires j <= |s|
    ensures j <= k <= |s|
    ensures forall m :: j <= m < k ==> IsSpace(s[m])
    ensures k < |s| ==> !IsSpace(s[k])
    decreases |s| - j
  {
    if j < |s| && IsSpace(s[j]) then SkipSpaces(s, j + 1) else j
  }

  /** `[^}]*}` from index `j`: the index of the first '}' at or after `j`, if any. */
  function NextClose(s: string, j: nat): (c: Option<nat>)
    requires j <= |s|
    ensures c.Some? ==> j <= c.value < |s| && s[c.value] == '}' && forall m :: j <= m < c.value ==> s[m] != '}'
    ensures c.None? ==> forall m :: j <= m < |s| ==> s[m] != '}'
    decreases |s| - j
  {
    if j == |s| then None else if s[j] == '}' then Some(j) else NextClose(s, j + 1)
  }

  /** A match of the regex: it starts at `start`, the captured list is `s[inner..close]` and `s[close]` is its '}'. */
  datatype Block = Block(start: nat, inner: nat, close: nat)

  /** The match of the regex that starts at index `i`, if there is one. */
  function BlockAt(s: string, i: nat): (b: Option<Block>)
    requires i <= |s|
    ensures b.Some? ==> b.value.start == i && OccursAt(s, "export", i)
                        && i + 6 < b.value.inner <= b.value.close < |s|
                        && s[b.value.close] == '}'
                        && (forall m :: b.value.inner <= m < b.value.close ==> s[m] != '}')
  {
    if !OccursAt(s, "export", i) then None
    else
      var k := SkipSpaces(s, i + 6);
      if k == |s| || s[k] != '{' then None
      else
        var g := SkipSpaces(s, k + 1);
        match NextClose(s, g)
        case None => None
        case Some(c) => Some(Block(i, g, c))
  }

  /** The leftmost match at or after `from`: what `exportRegex.test` and `content.replace(exportRegex, …)` act on. */
  function FirstBlock(s: string, from: nat): (b: Option<Block>)
    requires from <= |s|
    ensures b.Some? ==> from <= b.value.start <= |s| && BlockAt(s, b.value.start) == b
                        && forall j :: from <= j < b.value.start ==> BlockAt(s, j).None?
    ensures b.None? ==> forall j :: from <= j <= |s| ==> BlockAt(s, j).None?
    decreases |s| - from
  {
    var here := BlockAt(s, from);
    if here.Some? then here
    else if from == |s| then None
    else
      var r := FirstBlock(s, from + 1);
      assert forall j :: from <= j <= from ==> BlockAt(s, j) == here;
      r
  }

  lemma SkipSpacesUnique(s: string, j: nat, k: nat)
    requires j <= k <= |s|
    requires forall m :: j <= m < k ==> IsSpace(s[m])
    requires k < |s| ==> !IsSpace(s[k])
    ensures SkipSpaces(s, j) == k
  {
  }

  lemma NextCloseUnique(s: string, j: nat, c: nat)
    requires j <= c < |s| && s[c] == '}'
    requires forall m :: j <= m < c ==> s[m] != '}'
    ensures NextClose(s, j) == Some(c)
  {
  }

  /** Two strings that agree up to a non-space character skip the same whitespace. */
  lemma {:induction false} SkipSpacesAgree(s: string, t: string, j: nat, n: nat)
    requires j <= n < |s| && n < |t|
    requires forall m :: j <= m <= n ==> s[m] == t[m]
    requires !IsSpace(s[n])
    ensures SkipSpaces(s, j) == SkipSpaces(t, j) <= n
    decreases n - j
  {
    if j < n && IsSpace(s[j]) {
      SkipSpacesAgree(s, t, j + 1, n);
    }
  }

  /** A match laid out as the regex reads it is the match `BlockAt` finds. */
  lemma BlockFromShape(s: string, i: nat, k: nat, g: nat, c: nat)
    requires OccursAt(s, "export", i)
    requires i + 6 <= k < g <= c < |s|
    requires forall m :: i + 6 <= m < k ==> IsSpace(s[m])
    requires s[k] == '{'
    requires forall m :: k < m < g ==> IsSpace(s[m])
    requires !IsSpace(s[g])
    requires forall m :: g <= m < c ==> s[m] != '}'
    requires s[c] == '}'
    ensures BlockAt(s, i) == Some(Block(i, g, c))
  {
    SkipSpacesUnique(s, i + 6, k);
    SkipSpacesUnique(s, k + 1, g);
    NextCloseUnique(s, g, c);
  }

  /** The characters of an occurrence of "export" are none of the ones the proofs below tell apart from it. */
  lemma ExportLetters(s: string, i: nat)
    requires OccursAt(s, "export", i)
    ensures forall m :: i <= m < i + 6 ==>
              && !IsSpace(s[m]) && s[m] != '{' && s[m] != '}' && s[m] != 'i' && s[m] != ';' && s[m] != '\n'
              && (m != i ==> s[m] != 'e')
  {
    forall m | i <= m < i + 6
      ensures && !IsSpace(s[m]) && s[m] != '{' && s[m] != '}' && s[m] != 'i' && s[m] != ';' && s[m] != '\n'
              && (m != i ==> s[m] != 'e')
    {
      assert s[m] == s[i..i + 6][m - i];
    }
  }

  /** If no match starts before `i`, the leftmost match is the one at `i`. */
  lemma {:induction false} FirstBlockIs(s: string, from: nat, i: nat)
    requires from <= i <= |s|
    requires BlockAt(s, i).Some?
    requires forall j :: from <= j < i ==> BlockAt(s, j).None?
    ensures FirstBlock(s, from) == BlockAt(s, i)
    decreases i - from
  {
    if from < i {
      FirstBlockIs(s, from + 1, i);
    }
  }

  /**
    A match that starts before an occurrence of "export" at `i` ends at the
    first '}' after its brace, and that brace comes before `i`: so another
    string with the same text up to `i + 6` and some '}' after `i` has a match
    at the same place.
  */
  lemma EarlierBlockTransfers(s: string, t: string, i: nat, ct: nat, j: nat)
    requires j < i && i + 6 <= |s| && i + 6 <= |t|
    requires s[..i + 6] == t[..i + 6]
    requires OccursAt(s, "export", i)
    requires i <= ct < |t| && t[ct] == '}'
    requires BlockAt(s, j).Some?
    ensures BlockAt(t, j).Some?
  {
    forall m | 0 <= m < i + 6 ensures s[m] == t[m] {
      assert s[..i + 6][m] == t[..i + 6][m];
    }
    ExportLetters(s, j);
    ExportLetters(s, i);
    assert s[i] == 'e' by { assert s[i] == s[i..i + 6][0]; }
    assert j + 6 <= i;
    assert OccursAt(t, "export", j) by {
      assert t[j..j + 6] == s[j..j + 6];
    }
    var k := SkipSpaces(s, j + 6);
    SkipSpacesAgree(s, t, j + 6, i);
    assert k < i;
    var g := SkipSpaces(s, k + 1);
    SkipSpacesAgree(s, t, k + 1, i);
  }

  // ---------------------------------------------------------------------------
  // Rewriting a barrel file
  // ---------------------------------------------------------------------------

  /** No brace in `x`: it cannot open or close an export block. */
  predicate NoBraces(x: string) {
    forall m :: 0 <= m < |x| ==> x[m] != '{' && x[m] != '}'
  }

  /** What may be injected into an export list: non-empty, brace-free, not starting with whitespace. */
  predicate NameList(x: string) {
    x != [] && !IsSpace(x[0]) && NoBraces(x)
  }

  /** `import { ${names} } from "./${fileName}";`. */
  function ImportLine(names: string, fileName: string): (r: string)
    ensures |r| == 9 + |names| + 11 + |fileName| + 2
  {
    "import { " + names + " } from \"./" + fileName + "\";"
  }

  /** The import line goes in front of the content unless the content already contains it somewhere. */
  function WithImport(content: string, importLine: string): (r: string)
    ensures Contains(r, importLine)
    ensures Contains(content, importLine) ==> r == content
    ensures !Contains(content, importLine) ==> r == importLine + "\n" + content
  {
    if Contains(content, importLine) then content
    else
      var r := importLine + "\n" + content;
      assert r[..|importLine|] == importLine;
      ContainsAt(r, importLine, 0);
      r
  }

  /** The block appended when the content has no export block. */
  function ExportTail(names: string): string {
    "\nexport { " + names + " };"
  }

  /** The block that replaces the first one: its list trimmed, then `sep`, then the new names. */
  function ExportBlock(list: string, sep: string, names: string): string {
    "export { " + Trim(list) + sep + names + " }"
  }

  /**
    The export step: rewrite the first block unless its list already contains
    `key`, or append a new block when there is none. `updateIndexFile` injects
    `className` after ", "; `updateModelIndexFile` injects "C, IC".
  */
  function WithExport(content: string, key: string, sep: string, names: string): string {
    match FirstBlock(content, 0)
    case None => content + ExportTail(names)
    case Some(b) =>
      var list := content[b.inner..b.close];
      if Contains(list, key) then content
      else Rewrite(content, b, sep, names)
  }

  /** Contains is transitive. */
  lemma ContainsTrans(a: string, b: string, c: string)
    requires Contains(a, b) && Contains(b, c)
    ensures Contains(a, c)
  {
    var i :| 0 <= i <= |a| - |b| && OccursAt(a, b, i);
    assert a[i..i + |b|] == b;
    ContainsInSlice(a, i, i + |b|, c);
  }

  /** Text found between `a` and `b` is contained in `s[a..b]`. */
  lemma ContainsWithin(s: string, a: nat, b: nat, p: nat, t: string)
    requires a <= p && p + |t| <= b <= |s|
    requires s[p..p + |t|] == t
    ensures Contains(s[a..b], t)
  {
    forall m | 0 <= m < |t| ensures s[a..b][p - a..p - a + |t|][m] == t[m] {
      assert s[a..b][p - a..p - a + |t|][m] == s[p + m] == s[p..p + |t|][m];
    }
    assert s[a..b][p - a..p - a + |t|] == t;
    ContainsAt(s[a..b], t, p - a);
  }

  /** The text of `Trim(x)` is text of `x`: a brace-free list trims to a brace-free list. */
  lemma TrimKeepsNoClose(x: string)
    requires forall m :: 0 <= m < |x| ==> x[m] != '}'
    ensures forall m :: 0 <= m < |Trim(x)| ==> Trim(x)[m] != '}'
  {
    var t := Trim(x);
    if t != [] {
      var a :| OccursAt(x, t, a);
      forall m | 0 <= m < |t| ensures t[m] != '}' {
        assert t[m] == x[a..a + |t|][m];
      }
    }
  }

  /** `y` is `s` followed by an appended block for `names`: where the pieces of that block sit. */
  predicate TailText(s: string, y: string, names: string) {
    var n := |s|;
    && |y| == n + 13 + |names|
    && (forall m :: 0 <= m < n ==> y[m] == s[m])
    && y[n] == '\n' && OccursAt(y, "export", n + 1) && y[n + 1] == 'e'
    && y[n + 7] == ' ' && y[n + 8] == '{' && y[n + 9] == ' '
    && y[n + 10..n + 10 + |names|] == names
    && (forall m :: n <= m < n + 11 + |names| ==> y[m] != '}')
    && y[n + 11 + |names|] == '}'
  }

  /** The characters of the appended block on their own. */
  lemma ExportTailText(names: string)
    requires NoBraces(names)
    ensures var tail := ExportTail(names);
            && |tail| == 13 + |names|
            && tail[0] == '\n' && tail[1..7] == "export"
            && tail[7] == ' ' && tail[8] == '{' && tail[9] == ' '
            && tail[10..10 + |names|] == names
            && (forall m :: 0 <= m < 11 + |names| ==> tail[m] != '}')
            && tail[11 + |names|] == '}'
  {
    var front := "\nexport { ";
    var tail := ExportTail(names);
    assert tail == front + names + " };";
    forall m | 0 <= m < 11 + |names| ensures tail[m] != '}' {
      if m < 10 {
        assert tail[m] == front[m];
      } else if m < 10 + |names| {
        assert tail[m] == names[m - 10];
      }
    }
    assert tail[1..7] == front[1..7];
  }

  lemma TailLayout(s: string, names: string)
    requires NoBraces(names)
    ensures TailText(s, s + ExportTail(names), names)
  {
    var tail := ExportTail(names);
    var y := s + tail;
    var n := |s|;
    ExportTailText(names);
    forall m | 0 <= m < |tail| ensures y[n + m] == tail[m] {
    }
    assert y[n + 1..n + 7] == tail[1..7];
    assert y[n + 10..n + 10 + |names|] == tail[10..10 + |names|];
    forall m | n <= m < n + 11 + |names| ensures y[m] != '}' {
      assert y[m] == tail[m - n];
    }
  }

  /** A match in `y` that starts inside `s` has its brace inside `s`, where `s` has it too. */
  lemma EarlyBraceInContent(s: string, y: string, names: string, j: nat)
    requires TailText(s, y, names)
    requires j <= |s|
    requires BlockAt(y, j).Some?
    ensures var k := SkipSpaces(y, j + 6);
            && j + 6 <= k < |s| && OccursAt(s, "export", j)
            && SkipSpaces(s, j + 6) == k && s[k] == '{'
  {
    var n := |s|;
    ExportLetters(y, j);
    assert j + 6 <= n;
    assert OccursAt(s, "export", j) by {
      assert s[j..j + 6] == y[j..j + 6];
    }
    var k := SkipSpaces(y, j + 6);
    assert k < |y| && y[k] == '{';
    assert IsSpace(y[n]) && !IsSpace(y[n + 1]);
    assert k <= n + 1;
    assert k < n;
    SkipSpacesAgree(y, s, j + 6, k);
  }

  /** After a brace of `s` with no closing brace behind it, the list in `y` starts no later than the appended newline. */
  lemma ListStartInTail(s: string, y: string, names: string, k: nat)
    requires TailText(s, y, names)
    requires k < |s| && NextClose(s, SkipSpaces(s, k + 1)).None?
    ensures SkipSpaces(y, k + 1) <= |s| + 1
  {
    var n := |s|;
    var gc := SkipSpaces(s, k + 1);
    if gc < n {
      SkipSpacesAgree(s, y, k + 1, gc);
    } else {
      forall m | k + 1 <= m < n + 1 ensures IsSpace(y[m]) {
        if m < n {
          assert y[m] == s[m];
        }
      }
      SkipSpacesUnique(y, k + 1, n + 1);
    }
  }

  /** From inside `s`, where no closing brace is left, the next one in `y` closes the appended block. */
  lemma CloseInTail(s: string, y: string, names: string, g: nat)
    requires TailText(s, y, names)
    requires g <= |s| + 1
    requires forall m :: g <= m < |s| ==> s[m] != '}'
    ensures NextClose(y, g) == Some(|s| + 11 + |names|)
  {
    var n := |s|;
    forall m | g <= m < n + 11 + |names| ensures y[m] != '}' {
      if m < n {
        assert y[m] == s[m];
      }
    }
    NextCloseUnique(y, g, n + 11 + |names|);
  }

  /** A match in `y` that starts inside `s` (which has none) runs on into the appended block's list. */
  lemma EarlyBlockInTail(s: string, y: string, names: string, j: nat)
    requires TailText(s, y, names)
    requires FirstBlock(s, 0).None?
    requires j <= |s|
    requires BlockAt(y, j).Some?
    ensures BlockAt(y, j).value.inner <= |s| + 1 && BlockAt(y, j).value.close == |s| + 11 + |names|
  {
    EarlyBraceInContent(s, y, names, j);
    var k := SkipSpaces(y, j + 6);
    assert BlockAt(s, j).None?;
    ListStartInTail(s, y, names, k);
    var g := SkipSpaces(y, k + 1);
    assert g <= |s| + 1;
    assert SkipSpaces(s, k + 1) <= g by {
      if g < |s| {
        SkipSpacesAgree(y, s, k + 1, g);
      }
    }
    CloseInTail(s, y, names, g);
  }

  /** The appended block is a match of its own, listing exactly the names. */
  lemma TailBlockAt(s: string, y: string, names: string)
    requires TailText(s, y, names) && NameList(names)
    ensures BlockAt(y, |s| + 1) == Some(Block(|s| + 1, |s| + 10, |s| + 11 + |names|))
  {
    var n := |s|;
    assert y[n + 10] == names[0] by {
      assert y[n + 10] == y[n + 10..n + 10 + |names|][0];
    }
    BlockFromShape(y, n + 1, n + 8, n + 10, n + 11 + |names|);
  }

  /** In `y` as laid out, the first match ends at the appended block's '}' and its list starts no later than the names. */
  lemma FirstBlockInTail(s: string, y: string, names: string)
    requires TailText(s, y, names) && NameList(names)
    requires FirstBlock(s, 0).None?
    ensures FirstBlock(y, 0).Some?
    ensures FirstBlock(y, 0).value.inner <= |s| + 10 && FirstBlock(y, 0).value.close == |s| + 11 + |names|
  {
    var n := |s|;
    TailBlockAt(s, y, names);
    var b := FirstBlock(y, 0).value;
    if b.start <= n {
      EarlyBlockInTail(s, y, names, b.start);
    }
  }

  /** In `y` as laid out, the first match holds the appended names. */
  lemma AppendedBlockIn(s: string, y: string, names: string)
    requires TailText(s, y, names) && NameList(names)
    requires FirstBlock(s, 0).None?
    ensures Lists(y, names)
  {
    var n := |s|;
    FirstBlockInTail(s, y, names);
    var b := FirstBlock(y, 0).value;
    assert y[n + 10..n + 10 + |names|] == names;
    ContainsWithin(y, b.inner, b.close, n + 10, names);
  }

  /**
    When the content has no export block, the appended one becomes the first
    block and its list holds the injected names.
  */
  lemma AppendedBlock(s: string, names: string)
    requires NameList(names)
    requires FirstBlock(s, 0).None?
    ensures Lists(s + ExportTail(names), names)
  {
    TailLayout(s, names);
    AppendedBlockIn(s, s + ExportTail(names), names);
  }

  /** What the rewrite needs to know of a match: where its "export" and its list are, and that the list has no '}'. */
  predicate Framed(s: string, b: Block) {
    && b.start + 6 < b.inner <= b.close < |s|
    && OccursAt(s, "export", b.start)
    && forall m :: 0 <= m < b.close - b.inner ==> s[b.inner..b.close][m] != '}'
  }

  lemma FramedOfBlock(s: string, i: nat)
    requires i <= |s| && BlockAt(s, i).Some?
    ensures Framed(s, BlockAt(s, i).value)
  {
    var b := BlockAt(s, i).value;
    forall m | 0 <= m < b.close - b.inner ensures s[b.inner..b.close][m] != '}' {
      assert s[b.inner..b.close][m] == s[b.inner + m];
    }
  }

  /**
    The layout of a rewritten block `e`: "export { ", the trimmed list `t`,
    the injected `names` at `q`, then " }"; only the last character is a '}'.
  */
  predicate BlockText(e: string, t: string, q: nat, names: string) {
    && 9 <= q && q + |names| + 2 == |e|
    && e[..6] == "export" && e[6] == ' ' && e[7] == '{' && e[8] == ' '
    && (t != [] ==> e[9] == t[0] && !IsSpace(t[0]))
    && e[q..q + |names|] == names
    && (forall m :: 8 <= m < |e| - 1 ==> e[m] != '}')
    && e[|e| - 1] == '}'
  }

  /** Where the pieces of a rewritten block sit within it. */
  lemma ExportBlockLayout(list: string, sep: string, names: string)
    requires NoBraces(sep) && NoBraces(names)
    requires forall m :: 0 <= m < |list| ==> list[m] != '}'
    ensures BlockText(ExportBlock(list, sep, names), Trim(list), 9 + |Trim(list)| + |sep|, names)
  {
    var t := Trim(list);
    var e := ExportBlock(list, sep, names);
    var q := 9 + |t| + |sep|;
    var front := "export { ";
    assert e == front + t + sep + names + " }";
    assert e[..9] == front;
    assert e[..6] == front[..6] == "export";
    assert e[6] == e[..9][6] && e[7] == e[..9][7] && e[8] == e[..9][8];
    TrimKeepsNoClose(list);
    NoCloseInside(e, t, sep, names);
    assert e[q..q + |names|] == names;
  }

  /** Between `export {` and the final brace a rewritten block holds no closing brace. */
  lemma NoCloseInside(e: string, t: string, sep: string, names: string)
    requires e == "export { " + t + sep + names + " }"
    requires NoBraces(sep) && NoBraces(names)
    requires forall m :: 0 <= m < |t| ==> t[m] != '}'
    ensures forall m :: 8 <= m < |e| - 1 ==> e[m] != '}'
  {
    var front := "export { ";
    var q := 9 + |t| + |sep|;
    forall m | 8 <= m < |e| - 1 ensures e[m] != '}' {
      if m < 9 {
        assert e[m] == front[m];
      } else if m < 9 + |t| {
        assert e[m] == t[m - 9];
      } else if m < q {
        assert e[m] == sep[m - 9 - |t|];
      } else if m < q + |names| {
        assert e[m] == names[m - q];
      }
    }
  }

  /** The content with block `b` replaced by the rewritten block. */
  function Rewrite(s: string, b: Block, sep: string, names: string): string
    requires b.start <= b.inner <= b.close < |s|
  {
    s[..b.start] + ExportBlock(s[b.inner..b.close], sep, names) + s[b.close + 1..]
  }

  /** The rewritten content agrees with the original up to the end of the block's "export". */
  lemma RewriteKeepsFront(s: string, b: Block, sep: string, names: string)
    requires Framed(s, b)
    requires NoBraces(sep) && NameList(names)
    ensures var y := Rewrite(s, b, sep, names);
            var e := ExportBlock(s[b.inner..b.close], sep, names);
            && b.start + |e| <= |y|
            && y[b.start..b.start + |e|] == e
            && y[..b.start + 6] == s[..b.start + 6]
            && OccursAt(y, "export", b.start)
  {
    var list := s[b.inner..b.close];
    var e := ExportBlock(list, sep, names);
    var i := b.start;
    var y := Rewrite(s, b, sep, names);
    ExportBlockLayout(list, sep, names);
    assert y[i..i + |e|] == e;
    assert y[i..i + 6] == e[..6];
    assert y[..i] == s[..i];
    assert y[..i + 6] == y[..i] + y[i..i + 6];
    assert s[..i + 6] == s[..i] + s[i..i + 6];
  }

  /** The characters of a block of text laid out like a rewritten block, read off where it is placed. */
  lemma PlacedBlockChars(y: string, i: nat, e: string, t: string, q: nat, names: string)
    requires i + |e| <= |y| && y[i..i + |e|] == e
    requires BlockText(e, t, q, names)
    ensures OccursAt(y, "export", i) && y[i + 6] == ' ' && y[i + 7] == '{' && y[i + 8] == ' '
    ensures t != [] ==> y[i + 9] == t[0]
    ensures y[i + q..i + q + |names|] == names
    ensures forall m :: i + 8 <= m < i + |e| - 1 ==> y[m] != '}'
    ensures y[i + |e| - 1] == '}'
  {
    forall m | i <= m < i + |e| ensures y[m] == e[m - i] {
      assert y[m] == y[i..i + |e|][m - i];
    }
    assert y[i..i + 6] == e[..6];
    assert y[i + q..i + q + |names|] == e[q..q + |names|];
  }

  /** A block of text laid out like a rewritten block, placed in a string, is a match there. */
  lemma PlacedBlockMatches(y: string, i: nat, e: string, t: string, q: nat, names: string)
    requires i + |e| <= |y| && y[i..i + |e|] == e
    requires BlockText(e, t, q, names) && NameList(names)
    ensures var g := SkipSpaces(y, i + 8);
            && g < i + |e|
            && BlockAt(y, i) == Some(Block(i, g, i + |e| - 1))
            && (t != [] ==> g == i + 9)
            && Contains(ListOf(y, Block(i, g, i + |e| - 1)), names)
  {
    PlacedBlockChars(y, i, e, t, q, names);
    var g := SkipSpaces(y, i + 8);
    assert y[i + q] == names[0] by {
      assert y[i + q] == y[i + q..i + q + |names|][0];
    }
    assert g <= i + q;
    var close := i + |e| - 1;
    BlockFromShape(y, i, i + 7, g, close);
    ContainsWithin(y, g, close, i + q, names);
  }

  /** The captured list of a match. */
  function ListOf(s: string, b: Block): string
    requires b.inner <= b.close <= |s|
  {
    s[b.inner..b.close]
  }

  /** The first export block exists and its list mentions `names`. */
  predicate Lists(s: string, names: string) {
    && FirstBlock(s, 0).Some?
    && Contains(ListOf(s, FirstBlock(s, 0).value), names)
  }

  /** A string that agrees with `s` up to the "export" of its first match has no match before it either. */
  lemma NoEarlierBlockIn(s: string, y: string, i: nat, ct: nat)
    requires i + 6 <= |s| && i + 6 <= |y| && y[..i + 6] == s[..i + 6]
    requires OccursAt(y, "export", i)
    requires i <= ct < |s| && s[ct] == '}'
    requires forall j :: 0 <= j < i ==> BlockAt(s, j).None?
    ensures forall j :: 0 <= j < i ==> BlockAt(y, j).None?
  {
    forall j | 0 <= j < i ensures BlockAt(y, j).None? {
      if BlockAt(y, j).Some? {
        EarlierBlockTransfers(y, s, i, ct, j);
      }
    }
  }

  /** Rewriting the first block creates no match before it. */
  lemma NoEarlierBlock(s: string, b: Block, sep: string, names: string)
    requires FirstBlock(s, 0) == Some(b)
    requires NoBraces(sep) && NameList(names)
    ensures forall j :: 0 <= j < b.start ==> BlockAt(Rewrite(s, b, sep, names), j).None?
  {
    FramedOfBlock(s, b.start);
    RewriteKeepsFront(s, b, sep, names);
    NoEarlierBlockIn(s, Rewrite(s, b, sep, names), b.start, b.close);
  }

  /** A rewritten block placed at `i` in `y`, with no match before it, is the first match of `y`. */
  lemma PlacedFirst(y: string, i: nat, e: string, t: string, q: nat, names: string)
    requires i + |e| <= |y| && y[i..i + |e|] == e
    requires BlockText(e, t, q, names) && NameList(names)
    requires forall j :: 0 <= j < i ==> BlockAt(y, j).None?
    ensures FirstBlock(y, 0).Some?
    ensures var f := FirstBlock(y, 0).value;
            && f.start == i && f.close == i + |e| - 1
            && Contains(ListOf(y, f), names)
            && (t != [] ==> f.inner == i + 9)
  {
    PlacedBlockMatches(y, i, e, t, q, names);
    FirstBlockIs(y, 0, i);
  }

  /**
    After the first block is rewritten, the rewritten block is the first block
    of the result, and its list holds the injected names; when the old list is
    not blank, the new list starts right after "export { ".
  */
  lemma ReplacedBlock(s: string, b: Block, sep: string, names: string)
    requires FirstBlock(s, 0) == Some(b)
    requires NoBraces(sep) && NameList(names)
    ensures var y := Rewrite(s, b, sep, names);
            var f := FirstBlock(y, 0);
            && f.Some? && f.value.start == b.start
            && f.value.close == b.start + |ExportBlock(ListOf(s, b), sep, names)| - 1
            && Contains(ListOf(y, f.value), names)
            && (Trim(ListOf(s, b)) != [] ==> f.value.inner == b.start + 9)
  {
    var list := ListOf(s, b);
    var t := Trim(list);
    var y := Rewrite(s, b, sep, names);
    var e := ExportBlock(list, sep, names);
    FramedOfBlock(s, b.start);
    ExportBlockLayout(list, sep, names);
    RewriteKeepsFront(s, b, sep, names);
    NoEarlierBlock(s, b, sep, names);
    PlacedFirst(y, b.start, e, t, 9 + |t| + |sep|, names);
  }

  // ---------------------------------------------------------------------------
  // The import line survives the export rewrite
  // ---------------------------------------------------------------------------

  /** The characters of an import line the proofs below rely on. */
  predicate ImportText(imp: string, names: string) {
    && |imp| >= 22 + |names|
    && imp[0] == 'i' && imp[1] == 'm' && imp[7] == '{'
    && imp[9..9 + |names|] == names
    && imp[10 + |names|] == '}'
    && imp[|imp| - 1] == ';'
    && (forall m :: 0 <= m < |imp| && imp[m] == '{' ==> m == 7)
    && (forall m :: 0 <= m < |imp| && imp[m] == '}' ==> m == 10 + |names|)
  }

  lemma ImportLayout(names: string, fileName: string)
    requires NoBraces(names) && NoBraces(fileName)
    ensures ImportText(ImportLine(names, fileName), names)
  {
    var imp := ImportLine(names, fileName);
    var mid := " } from \"./";
    assert imp == "import { " + names + mid + fileName + "\";";
    var q := 9 + |names| + |mid|;
    forall m | 0 <= m < |imp|
      ensures (imp[m] == '{' ==> m == 7) && (imp[m] == '}' ==> m == 10 + |names|)
    {
      if 9 <= m < 9 + |names| {
        assert imp[m] == names[m - 9];
      } else if q <= m < q + |fileName| {
        assert imp[m] == fileName[m - q];
      }
    }
    assert imp[9..9 + |names|] == names;
  }

  /** The shape of a match, with its '{' at `k`. */
  predicate BlockShape(s: string, b: Block, k: nat) {
    && b.start + 6 <= k < b.inner <= b.close < |s|
    && OccursAt(s, "export", b.start)
    && s[k] == '{'
    && (forall m :: b.start + 6 <= m < b.inner && m != k ==> IsSpace(s[m]))
    && (forall m :: b.inner <= m < b.close ==> s[m] != '}')
    && s[b.close] == '}'
  }

  lemma BlockShapeOf(s: string, i: nat)
    requires i <= |s| && BlockAt(s, i).Some?
    ensures BlockShape(s, BlockAt(s, i).value, SkipSpaces(s, i + 6))
  {
  }

  /** Text `imp` placed at `p` in `s`, one character at a time. */
  predicate PlacedAt(s: string, imp: string, p: nat) {
    p + |imp| <= |s| && forall j :: p <= j < p + |imp| ==> s[j] == imp[j - p]
  }

  lemma PlacedOfOccurs(s: string, imp: string, p: nat)
    requires OccursAt(s, imp, p)
    ensures PlacedAt(s, imp, p)
  {
    forall j | p <= j < p + |imp| ensures s[j] == imp[j - p] {
      assert s[j] == s[p..p + |imp|][j - p];
    }
  }

  /** A match cannot start strictly inside an import line. */
  lemma ImportNotEntered(s: string, b: Block, k: nat, imp: string, names: string, p: nat)
    requires ImportText(imp, names) && PlacedAt(s, imp, p)
    requires BlockShape(s, b, k)
    ensures b.start <= p || p + |imp| <= b.start
  {
    ExportLetters(s, b.start);
    assert s[b.start] == 'e' by { assert s[b.start] == s[b.start..b.start + 6][0]; }
    assert s[p + 1] == 'm';
    assert s[p + |imp| - 1] == ';';
  }

  /** An import line that starts inside a match lies in its list, up to the list's end. */
  lemma ImportInsideList(s: string, b: Block, k: nat, imp: string, names: string, p: nat)
    requires ImportText(imp, names) && PlacedAt(s, imp, p)
    requires BlockShape(s, b, k)
    ensures b.start <= p <= b.close ==> Contains(ListOf(s, b), names)
  {
    if b.start <= p <= b.close {
      ExportLetters(s, b.start);
      assert s[p] == 'i';
      assert b.inner <= p < b.close;
      assert s[p + 10 + |names|] == '}';
      assert b.close == p + 10 + |names|;
      assert s[p + 9..p + 9 + |names|] == names by {
        forall m | 0 <= m < |names| ensures s[p + 9 + m] == names[m] {
          assert imp[9 + m] == imp[9..9 + |names|][m];
        }
      }
      ContainsWithin(s, b.inner, b.close, p + 9, names);
    }
  }

  /** Text that lies wholly before or wholly after a spliced-out span is still contained after the splice. */
  lemma SpliceKeeps(s: string, y: string, a: nat, c: nat, e: string, t: string, p: nat)
    requires a <= c < |s| && y == s[..a] + e + s[c + 1..]
    requires OccursAt(s, t, p)
    requires p + |t| <= a || c < p
    ensures Contains(y, t)
  {
    if p + |t| <= a {
      assert y[..a] == s[..a];
      assert y[p..p + |t|] == s[..a][p..p + |t|];
      ContainsAt(y, t, p);
    } else {
      var d := a + |e| - (c + 1);
      assert y[a + |e|..] == s[c + 1..];
      assert y[p + d..p + d + |t|] == s[c + 1..][p - c - 1..p - c - 1 + |t|];
      ContainsAt(y, t, p + d);
    }
  }

  /** An import line lies wholly before or wholly after a match whose list does not hold its names. */
  lemma ImportOutsideBlock(s: string, b: Block, imp: string, names: string, p: nat)
    requires b.start <= |s| && BlockAt(s, b.start) == Some(b)
    requires ImportText(imp, names) && OccursAt(s, imp, p)
    requires !Contains(ListOf(s, b), names)
    ensures p + |imp| <= b.start || b.close < p
  {
    var k := SkipSpaces(s, b.start + 6);
    BlockShapeOf(s, b.start);
    PlacedOfOccurs(s, imp, p);
    ImportNotEntered(s, b, k, imp, names, p);
    ImportInsideList(s, b, k, imp, names, p);
  }

  /**
    An import line that the content contains is still there after the first
    block is rewritten, unless the block's list already holds its names.
  */
  lemma ImportSurvivesRewrite(s: string, b: Block, sep: string, names: string, imp: string, p: nat)
    requires b.start <= |s| && BlockAt(s, b.start) == Some(b)
    requires ImportText(imp, names) && OccursAt(s, imp, p)
    requires !Contains(ListOf(s, b), names)
    ensures Contains(Rewrite(s, b, sep, names), imp)
  {
    var e := ExportBlock(s[b.inner..b.close], sep, names);
    var y := Rewrite(s, b, sep, names);
    assert y == s[..b.start] + e + s[b.close + 1..];
    ImportOutsideBlock(s, b, imp, names, p);
    SpliceKeeps(s, y, b.start, b.close, e, imp, p);
  }

  // ---------------------------------------------------------------------------
  // updateIndexFile and updateModelIndexFile
  // ---------------------------------------------------------------------------

  /**
    Both index updaters: put the import line for `names` in front unless the
    content has it, then inject `names` after `sep` into the first export list
    unless that list already mentions `key`, or append a block.
  */
  function Inject(content: string, names: string, key: string, sep: string, fileName: string): string {
    WithExport(WithImport(content, ImportLine(names, fileName)), key, sep, names)
  }

  /** `updateIndexFile`: the controller, service, repository and validator barrels. */
  function UpdateIndexFile(content: string, className: string, fileName: string): string {
    Inject(content, className, className, ", ", fileName)
  }

  /** The names `updateModelIndexFile` imports and exports: the model class and its interface. */
  function ModelNames(className: string): string {
    className + ", I" + className
  }

  /** `updateModelIndexFile` as written: the trimmed list and the new names are joined by a bare space. */
  function UpdateModelIndexFileAsWritten(content: string, className: string, fileName: string): string {
    Inject(content, ModelNames(className), className, " ", fileName)
  }

  /** `updateModelIndexFile` with the comma the other updater puts between the old list and the new names. */
  function UpdateModelIndexFile(content: string, className: string, fileName: string): string {
    Inject(content, ModelNames(className), className, ", ", fileName)
  }

  lemma ContainsExtend(s: string, u: string, t: string)
    requires Contains(s, t)
    ensures Contains(s + u, t)
  {
    var p :| 0 <= p <= |s| - |t| && OccursAt(s, t, p);
    assert (s + u)[p..p + |t|] == s[p..p + |t|];
    ContainsAt(s + u, t, p);
  }

  /**
    After an update the content contains the import line, and its first
    export list mentions the key (the class name).
  */
  lemma InjectRegisters(content: string, names: string, key: string, sep: string, fileName: string)
    requires NameList(names) && NoBraces(fileName) && NoBraces(sep)
    requires Contains(names, key)
    ensures var y := Inject(content, names, key, sep, fileName);
            Contains(y, ImportLine(names, fileName)) && Lists(y, key)
  {
    var imp := ImportLine(names, fileName);
    var c := WithImport(content, imp);
    ImportLayout(names, fileName);
    match FirstBlock(c, 0)
    case None =>
      AppendedBlock(c, names);
      ContainsTrans(ListOf(c + ExportTail(names), FirstBlock(c + ExportTail(names), 0).value), names, key);
      ContainsExtend(c, ExportTail(names), imp);
    case Some(b) =>
      if !Contains(ListOf(c, b), key) {
        if Contains(ListOf(c, b), names) {
          ContainsTrans(ListOf(c, b), names, key);
        }
        var y := Rewrite(c, b, sep, names);
        ReplacedBlock(c, b, sep, names);
        ContainsTrans(ListOf(y, FirstBlock(y, 0).value), names, key);
        var p :| 0 <= p <= |c| - |imp| && OccursAt(c, imp, p);
        ImportSurvivesRewrite(c, b, sep, names, imp, p);
      }
  }

  /** Running an update twice changes nothing the first run did not. */
  lemma InjectIdempotent(content: string, names: string, key: string, sep: string, fileName: string)
    requires NameList(names) && NoBraces(fileName) && NoBraces(sep)
    requires Contains(names, key)
    ensures var y := Inject(content, names, key, sep, fileName);
            Inject(y, names, key, sep, fileName) == y
  {
    InjectRegisters(content, names, key, sep, fileName);
  }

  lemma ContainsSelf(s: string)
    ensures Contains(s, s)
  {
    assert s[0..|s|] == s;
    ContainsAt(s, s, 0);
  }

  /** `updateIndexFile` registers the class: its import line is present and the first export list names it; a rerun changes nothing. */
  lemma UpdateIndexFileRegisters(content: string, className: string, fileName: string)
    requires NameList(className) && NoBraces(fileName)
    ensures var y := UpdateIndexFile(content, className, fileName);
            && Contains(y, ImportLine(className, fileName))
            && Lists(y, className)
            && UpdateIndexFile(y, className, fileName) == y
  {
    ContainsSelf(className);
    InjectRegisters(content, className, className, ", ", fileName);
    InjectIdempotent(content, className, className, ", ", fileName);
  }

  lemma ModelNamesList(className: string)
    requires NameList(className)
    ensures NameList(ModelNames(className)) && Contains(ModelNames(className), className)
  {
    var n := ModelNames(className);
    assert n[..|className|] == className;
    ContainsAt(n, className, 0);
    forall m | 0 <= m < |n| ensures n[m] != '{' && n[m] != '}' {
      if m < |className| {
        assert n[m] == className[m];
      } else if m >= |className| + 3 {
        assert n[m] == className[m - |className| - 3];
      }
    }
  }

  /** `updateModelIndexFile` (with the comma) registers the model: import line present, first list names the class; a rerun changes nothing. */
  lemma UpdateModelIndexFileRegisters(content: string, className: string, fileName: string)
    requires NameList(className) && NoBraces(fileName)
    ensures var y := UpdateModelIndexFile(content, className, fileName);
            && Contains(y, ImportLine(ModelNames(className), fileName))
            && Lists(y, className)
            && UpdateModelIndexFile(y, className, fileName) == y
  {
    ModelNamesList(className);
    InjectRegisters(content, ModelNames(className), className, ", ", fileName);
    InjectIdempotent(content, ModelNames(className), className, ", ", fileName);
  }

  lemma ExportBlockText(list: string, sep: string, names: string)
    ensures ExportBlock(list, sep, names) == "export { " + (Trim(list) + sep + names + " ") + "}"
  {
  }

  /** The list of a block "export { " + `m` + "}" placed at `i` is `m`. */
  lemma PlacedList(y: string, f: Block, i: nat, e: string, m: string)
    requires e == "export { " + m + "}"
    requires i + |e| <= |y| && y[i..i + |e|] == e
    requires f.inner == i + 9 && f.close == i + |e| - 1
    ensures f.inner <= f.close <= |y| && ListOf(y, f) == m
  {
    forall k | 0 <= k < |m| ensures y[i + 9 + k] == m[k] {
      assert y[i + 9 + k] == y[i..i + |e|][9 + k] == e[9 + k];
    }
  }

  /**
    When the first block's list is not blank, the rewritten first list is
    exactly the trimmed old list, then `sep`, then the injected names.
  */
  lemma RewrittenList(s: string, b: Block, sep: string, names: string)
    requires FirstBlock(s, 0) == Some(b)
    requires NoBraces(sep) && NameList(names)
    requires Trim(ListOf(s, b)) != []
    ensures var y := Rewrite(s, b, sep, names);
            && FirstBlock(y, 0).Some?
            && ListOf(y, FirstBlock(y, 0).value) == Trim(ListOf(s, b)) + sep + names + " "
  {
    var list := ListOf(s, b);
    var m := Trim(list) + sep + names + " ";
    var y := Rewrite(s, b, sep, names);
    var e := ExportBlock(list, sep, names);
    FramedOfBlock(s, b.start);
    RewriteKeepsFront(s, b, sep, names);
    ReplacedBlock(s, b, sep, names);
    ExportBlockText(list, sep, names);
    PlacedList(y, FirstBlock(y, 0).value, b.start, e, m);
  }

  // ---------------------------------------------------------------------------
  // The separator updateModelIndexFile puts before the new names
  // ---------------------------------------------------------------------------

  /** No comma in `c`. */
  predicate CommaFree(c: string) {
    forall m :: 0 <= m < |c| ==> c[m] != ','
  }

  /** The fields of a list `t` followed by " C, IC ", as the as-written updater leaves it. */
  lemma SplitAsWritten(t: string, className: string)
    requires CommaFree(className)
    ensures var parts := Split(t, ',');
            Split(t + " " + ModelNames(className) + " ", ',')
            == parts[..|parts| - 1] + [parts[|parts| - 1] + " " + className, " I" + className + " "]
  {
    var b := " " + className;
    var z := " I" + className + " ";
    assert t + " " + ModelNames(className) + " " == t + b + [','] + z;
    SplitJoinLast(t, b, z, ',');
    var parts := Split(t, ',');
    assert parts[|parts| - 1] + b == parts[|parts| - 1] + " " + className;
  }

  /** The fields of a list `t` followed by ", C, IC ", as the corrected updater leaves it. */
  lemma SplitCorrected(t: string, className: string)
    requires CommaFree(className)
    ensures Split(t + ", " + ModelNames(className) + " ", ',')
            == Split(t, ',') + [" " + className, " I" + className + " "]
  {
    var a := " " + className;
    var z := " I" + className + " ";
    CorrectedTail(t, className);
    SplitConcat(t, a + [','] + z, ',');
    NamesCommaFree(className);
    SplitTwoFields(a, z, ',');
  }

  lemma CorrectedTail(t: string, className: string)
    ensures t + ", " + ModelNames(className) + " " == t + [','] + ((" " + className) + [','] + (" I" + className + " "))
  {
  }

  lemma NamesCommaFree(className: string)
    requires CommaFree(className)
    ensures CommaFree(" " + className) && CommaFree(" I" + className + " ")
  {
    var a := " " + className;
    var z := " I" + className + " ";
    forall m | 1 <= m < |a| ensures a[m] != ',' {
      assert a[m] == className[m - 1];
    }
    forall m | 2 <= m < |z| - 1 ensures z[m] != ',' {
      assert z[m] == className[m - 2];
    }
  }

  /**
    As written, `updateModelIndexFile` joins a non-blank old list and the new
    names with a bare space: split at commas, the old list's last name and
    the new class fall into one field, so the list gains one field for two names.
  */
  lemma ModelListAsWritten(s: string, b: Block, className: string)
    requires FirstBlock(s, 0) == Some(b)
    requires NameList(className) && CommaFree(className)
    requires Trim(ListOf(s, b)) != []
    ensures var y := Rewrite(s, b, " ", ModelNames(className));
            var old_ := Split(Trim(ListOf(s, b)), ',');
            var last := old_[|old_| - 1];
            && FirstBlock(y, 0).Some?
            && Split(ListOf(y, FirstBlock(y, 0).value), ',')
               == old_[..|old_| - 1] + [last + " " + className, " I" + className + " "]
  {
    var t := Trim(ListOf(s, b));
    ModelNamesList(className);
    RewrittenList(s, b, " ", ModelNames(className));
    var y := Rewrite(s, b, " ", ModelNames(className));
    var l := ListOf(y, FirstBlock(y, 0).value);
    assert l == t + " " + ModelNames(className) + " ";
    SplitAsWritten(t, className);
  }

  /**
    With the comma, the rewritten list's fields are the old list's fields
    followed by one field for the class and one for its interface.
  */
  lemma ModelListCorrected(s: string, b: Block, className: string)
    requires FirstBlock(s, 0) == Some(b)
    requires NameList(className) && CommaFree(className)
    requires Trim(ListOf(s, b)) != []
    ensures var y := Rewrite(s, b, ", ", ModelNames(className));
            && FirstBlock(y, 0).Some?
            && Split(ListOf(y, FirstBlock(y, 0).value), ',')
               == Split(Trim(ListOf(s, b)), ',') + [" " + className, " I" + className + " "]
  {
    ModelNamesList(className);
    RewrittenList(s, b, ", ", ModelNames(className));
    SplitCorrected(Trim(ListOf(s, b)), className);
  }

  /** With no 'x' up to index `i`, no "export" starts before `i`. */
  lemma NoBlockBefore(s: string, i: nat)
    requires i < |s| && forall m :: 0 <= m <= i ==> s[m] != 'x'
    ensures forall j :: 0 <= j < i ==> BlockAt(s, j).None?
  {
    forall j | 0 <= j < i ensures !OccursAt(s, "export", j) {
      if j + 6 <= |s| {
        assert s[j + 1] == s[j..j + 6][1];
      }
    }
  }

  /** The model barrel of the example: one model already registered. */
  const ExampleModels: string := "export { User, IUser }"

  /** The import line for a "Post" model in "post.model", put in front of the example barrel. */
  lemma ExampleImported()
    ensures ModelNames("Post") == "Post, IPost"
    ensures var imp := ImportLine("Post, IPost", "post.model");
            && |imp| == 43
            && WithImport(ExampleModels, imp) == imp + "\n" + ExampleModels
            && forall m :: 0 <= m < |imp| ==> imp[m] != 'x'
  {
    ExampleModelNames();
    var imp := ImportLine("Post, IPost", "post.model");
    assert |ExampleModels| < |imp|;
    ImportLineLacksX("Post, IPost", "post.model");
  }

  lemma ExampleModelNames()
    ensures ModelNames("Post") == "Post, IPost"
  {
  }

  /** An import line has no 'x' when neither the names nor the file name has one. */
  lemma ImportLineLacksX(names: string, fileName: string)
    requires forall m :: 0 <= m < |names| ==> names[m] != 'x'
    requires forall m :: 0 <= m < |fileName| ==> fileName[m] != 'x'
    ensures var imp := ImportLine(names, fileName); forall m :: 0 <= m < |imp| ==> imp[m] != 'x'
  {
    var front, middle, back := "import { ", " } from \"./", "\";";
    var imp := ImportLine(names, fileName);
    assert imp == front + names + middle + fileName + back;
    forall m | 0 <= m < |imp| ensures imp[m] != 'x' {
      var a := |front|;
      var b := a + |names|;
      var c := b + |middle|;
      var d := c + |fileName|;
      if m < a { assert imp[m] == front[m]; }
      else if m < b { assert imp[m] == names[m - a]; }
      else if m < c { assert imp[m] == middle[m - b]; }
      else if m < d { assert imp[m] == fileName[m - c]; }
      else { assert imp[m] == back[m - d]; }
    }
  }

  lemma ExampleModelsText()
    ensures ExampleModels[..6] == "export"
    ensures ExampleModels[9..21] == "User, IUser "
    ensures SmallBlockText(ExampleModels)
  {
    var e := ExampleModels;
    assert e == "export" + " { " + "User, IUser " + "}";
    SmallBlockFromParts(e, "User, IUser ");
  }

  /** A 22-character block whose middle is brace-free and starts with a non-space. */
  lemma SmallBlockFromParts(e: string, mid: string)
    requires |e| == 22 && e[..6] == "export" && e[6] == ' ' && e[7] == '{' && e[8] == ' '
    requires e[9..21] == mid && e[21] == '}' && !IsSpace(mid[0]) && NoBraces(mid)
    ensures SmallBlockText(e)
  {
    forall m | 9 <= m < 21 ensures e[m] != '}' {
      assert e[m] == mid[m - 9];
    }
  }

  /** The text of a 22-character block like the example barrel's. */
  predicate SmallBlockText(e: string) {
    && |e| == 22 && e[..6] == "export"
    && e[6] == ' ' && e[7] == '{' && e[8] == ' ' && !IsSpace(e[9])
    && (forall m :: 9 <= m < 21 ==> e[m] != '}') && e[21] == '}'
  }

  /** Such a block placed at `n` is a match there, listing the block's middle. */
  lemma SmallBlockAt(c: string, n: nat, e: string)
    requires n + 22 == |c| && c[n..] == e && SmallBlockText(e)
    ensures BlockAt(c, n) == Some(Block(n, n + 9, n + 21))
    ensures c[n] == 'e' && c[n + 9..n + 21] == e[9..21]
  {
    forall m | 0 <= m < 22 ensures c[n + m] == e[m] {
      assert c[n + m] == c[n..][m];
    }
    assert c[n..n + 6] == e[..6];
    assert c[n] == e[..6][0];
    BlockFromShape(c, n, n + 7, n + 9, n + 21);
    assert c[n + 9..n + 21] == e[9..21];
  }

  /** Such a block placed at `n` after text without an 'x' is the first match. */
  lemma SmallBlockFirst(c: string, n: nat, e: string)
    requires n + 22 == |c| && c[n..] == e && SmallBlockText(e)
    requires forall m :: 0 <= m < n ==> c[m] != 'x'
    ensures FirstBlock(c, 0) == Some(Block(n, n + 9, n + 21))
    ensures ListOf(c, Block(n, n + 9, n + 21)) == e[9..21]
  {
    SmallBlockAt(c, n, e);
    NoBlockBefore(c, n);
    FirstBlockIs(c, 0, n);
  }

  /** In the example, the first match is the barrel's own block, with list "User, IUser ". */
  lemma ExampleFirstBlock()
    ensures var c := ImportLine("Post, IPost", "post.model") + "\n" + ExampleModels;
            && |c| == 66
            && FirstBlock(c, 0) == Some(Block(44, 53, 65))
            && ListOf(c, Block(44, 53, 65)) == "User, IUser "
  {
    ExampleImported();
    var imp := ImportLine("Post, IPost", "post.model");
    var c := imp + "\n" + ExampleModels;
    forall m | 0 <= m < 44 ensures c[m] != 'x' {
      if m < 43 {
        assert c[m] == imp[m];
      }
    }
    assert c[44..] == ExampleModels;
    ExampleModelsText();
    SmallBlockFirst(c, 44, ExampleModels);
  }

  /** A string none of whose characters is the first of `t` does not contain `t`. */
  lemma LacksFirstChar(s: string, t: string)
    requires t != [] && forall m :: 0 <= m < |s| ==> s[m] != t[0]
    ensures !Contains(s, t)
  {
    forall i | 0 <= i <= |s| - |t| ensures !OccursAt(s, t, i) {
      assert s[i..i + |t|][0] == s[i];
    }
  }

  /** Trimming a single trailing space. */
  lemma TrimOneTrailingSpace(x: string)
    requires x != [] && !IsSpace(x[0]) && !IsSpace(x[|x| - 1])
    ensures Trim(x + " ") == x
  {
    var s := x + " ";
    assert s[..|s| - 1] == x;
    assert LeadingSpaces(s) == 0;
    assert TrailingSpaces(x) == 0;
    assert TrailingSpaces(s) == 1;
    assert s[0..|s| - 1] == x;
  }

  /** The example's old list is untouched by the class name and trims to "User, IUser". */
  lemma ExampleList()
    ensures !Contains("User, IUser ", "Post")
    ensures Trim("User, IUser ") == "User, IUser"
  {
    var list := "User, IUser ";
    forall m | 0 <= m < |list| ensures list[m] != 'P' {
    }
    LacksFirstChar(list, "Post");
    assert "User, IUser" + " " == list;
    TrimOneTrailingSpace("User, IUser");
  }

  /** The rewrite splices the new block between the text before the old block and the text after it. */
  lemma RewriteSplices(c: string, b: Block, sep: string, names: string, front: string, list: string, back: string)
    requires b.start <= b.inner <= b.close < |c|
    requires c[..b.start] == front && c[b.inner..b.close] == list && c[b.close + 1..] == back
    ensures Rewrite(c, b, sep, names) == front + ExportBlock(list, sep, names) + back
  {
  }

  lemma ExampleBlock(sep: string)
    ensures ExportBlock("User, IUser ", sep, "Post, IPost") == "export { User, IUser" + sep + "Post, IPost }"
  {
    ExampleList();
  }

  /** The example content rewritten with separator `sep`, for any 43-character import line in front. */
  lemma ExampleRewrite(c: string, imp: string, sep: string)
    requires |imp| == 43 && c == imp + "\n" + ExampleModels
    ensures Rewrite(c, Block(44, 53, 65), sep, "Post, IPost") == (imp + "\n") + ("export { User, IUser" + sep + "Post, IPost }")
  {
    ExampleModelsText();
    assert |c| == 66;
    assert c[53..65] == ExampleModels[9..21];
    assert c[..44] == imp + "\n";
    RewriteSplices(c, Block(44, 53, 65), sep, "Post, IPost", imp + "\n", "User, IUser ", []);
    ExampleBlock(sep);
  }

  /** The update of the example: its import line goes in front and the barrel's block is rewritten with `sep`. */
  lemma ExampleUpdate(sep: string)
    ensures Inject(ExampleModels, ModelNames("Post"), "Post", sep, "post.model")
            == (ImportLine("Post, IPost", "post.model") + "\n") + ("export { User, IUser" + sep + "Post, IPost }")
  {
    ExampleImported();
    ExampleFirstBlock();
    ExampleList();
    ExampleRewrite(ImportLine("Post, IPost", "post.model") + "\n" + ExampleModels, ImportLine("Post, IPost", "post.model"), sep);
  }

  lemma ExampleTextAsWritten()
    ensures "\n" + ("export { User, IUser" + " " + "Post, IPost }") == "\nexport { User, IUser Post, IPost }"
  {
  }

  lemma ExampleTextCorrected()
    ensures "\n" + ("export { User, IUser" + ", " + "Post, IPost }") == "\nexport { User, IUser, Post, IPost }"
  {
  }

  lemma AppendAssoc(a: string, b: string, c: string)
    ensures (a + b) + c == a + (b + c)
  {
  }

  /**
    As written, registering "Post" in a barrel exporting "User, IUser" leaves
    "IUser Post" side by side without a comma: not a valid export list.
  */
  lemma ModelIndexAsWrittenExample()
    ensures UpdateModelIndexFileAsWritten(ExampleModels, "Post", "post.model")
            == ImportLine("Post, IPost", "post.model") + "\nexport { User, IUser Post, IPost }"
  {
    ExampleUpdate(" ");
    ExampleTextAsWritten();
    AppendAssoc(ImportLine("Post, IPost", "post.model"), "\n", "export { User, IUser" + " " + "Post, IPost }");
  }

  /** With the comma, the same update yields the list "User, IUser, Post, IPost". */
  lemma ModelIndexExample()
    ensures UpdateModelIndexFile(ExampleModels, "Post", "post.model")
            == ImportLine("Post, IPost", "post.model") + "\nexport { User, IUser, Post, IPost }"
  {
    ExampleUpdate(", ");
    ExampleTextCorrected();
    AppendAssoc(ImportLine("Post, IPost", "post.model"), "\n", "export { User, IUser" + ", " + "Post, IPost }");
  }
}
