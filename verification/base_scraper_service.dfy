/**
 * The page-level extraction shared by every site service: the flat list of
 * heading records, the change verifier computed from the title and heading
 * texts, and the page-data record that carries both.
 *
 * The parsed document is represented by what the HTML parser would return
 * for it: one list of (already stripped) element texts per heading tag, in
 * the parser's element order. The hash is a caller-supplied function.
 */
module BaseScraperService {

  /** The heading tags, in the order the extractor visits them. */
  const HeadingTags: seq<string> := ["h1", "h2", "h3", "h4", "h5", "h6"]

  /** One emitted heading record. */
  datatype Heading = Heading(
    tag: string,     // the heading tag, "h1" .. "h6"
    text: string,    // the element's stripped text, possibly empty
    order: nat,      // 1-based index among the elements of the same tag
    level: nat,      // 1-based index of the tag in HeadingTags
    position: nat    // 1-based index in the whole result
  )

  /** `"h"` followed by the decimal digit of `level`. */
  function TagName(level: nat): (tag: string)
    requires 1 <= level <= 9
  {
    "h" + [('0' as int + level) as char]
  }

  /** Each tag in HeadingTags is "h" followed by its own level. */
  lemma TagsSpellTheirLevel()
    ensures forall i :: 0 <= i < |HeadingTags| ==> HeadingTags[i] == TagName(i + 1)
  {
    assert HeadingTags[0] == TagName(1);
    assert HeadingTags[5] == TagName(6);
  }

  // ---------------------------------------------------------------------
  // Where each record lands

  /** Number of elements in the first `n` per-tag lists. */
  function CountBefore(byTag: seq<seq<string>>, n: nat): (count: nat)
    requires n <= |byTag|
  {
    if n == 0 then 0 else CountBefore(byTag, n - 1) + |byTag[n - 1]|
  }

  /** Number of heading elements of all tags together. */
  function Total(byTag: seq<seq<string>>): (count: nat) {
    CountBefore(byTag, |byTag|)
  }

  /** The 0-based index of the `j`-th element of the `i`-th tag in the flat list. */
  function Slot(byTag: seq<seq<string>>, i: nat, j: nat): (index: nat)
    requires i <= |byTag|
  {
    CountBefore(byTag, i) + j
  }

  /** The record the extractor emits for the `j`-th element of the `i`-th tag. */
  function Entry(byTag: seq<seq<string>>, i: nat, j: nat): (h: Heading)
    requires i < |byTag| <= |HeadingTags| && j < |byTag[i]|
  {
    Heading(HeadingTags[i], byTag[i][j], j + 1, i + 1, Slot(byTag, i, j) + 1)
  }

  /** The records of the first `n` tags sit at their offsets in `hs`. */
  ghost predicate GroupsPlaced(byTag: seq<seq<string>>, hs: seq<Heading>, n: nat)
    requires n <= |byTag| <= |HeadingTags|
  {
    forall i, j {:trigger Slot(byTag, i, j)} :: 0 <= i < n && 0 <= j < |byTag[i]| ==>
      Slot(byTag, i, j) < |hs| && hs[Slot(byTag, i, j)] == Entry(byTag, i, j)
  }

  /**
   * `hs` is the heading list for the per-tag element lists `byTag`: one
   * record per element, all of one tag before any of the next.
   */
  ghost predicate Enumerates(byTag: seq<seq<string>>, hs: seq<Heading>)
    requires |byTag| == |HeadingTags|
  {
    |hs| == Total(byTag) && GroupsPlaced(byTag, hs, |byTag|)
  }

  lemma {:induction false} CountBeforeMonotone(byTag: seq<seq<string>>, a: nat, b: nat)
    requires a <= b <= |byTag|
    ensures CountBefore(byTag, a) <= CountBefore(byTag, b)
    decreases b
  {
    if a < b {
      CountBeforeMonotone(byTag, a, b - 1);
    }
  }

  /** Every index below the element count of the first `n` tags belongs to one element. */
  lemma {:induction false} Locate(byTag: seq<seq<string>>, n: nat, k: nat) returns (i: nat, j: nat)
    requires n <= |byTag| && k < CountBefore(byTag, n)
    ensures i < n && j < |byTag[i]| && k == Slot(byTag, i, j)
    decreases n
  {
    if k < CountBefore(byTag, n - 1) {
      i, j := Locate(byTag, n - 1, k);
    } else {
      i, j := n - 1, k - CountBefore(byTag, n - 1);
    }
  }

  /** An element's index lies inside its tag's block and outside every later one. */
  lemma BlockBounds(byTag: seq<seq<string>>, i: nat, j: nat, i': nat)
    requires i < |byTag| && j < |byTag[i]| && i' <= |byTag|
    ensures i < i' ==> CountBefore(byTag, i) + j < CountBefore(byTag, i')
    ensures i' <= i ==> CountBefore(byTag, i') <= CountBefore(byTag, i) + j
  {
    if i < i' {
      CountBeforeMonotone(byTag, i + 1, i');
    } else {
      CountBeforeMonotone(byTag, i', i);
    }
  }

  // ---------------------------------------------------------------------
  // extract_headings

  /**
   * The nested loop of the extractor: tags in HeadingTags order, elements
   * in parser order, each record numbered by the length of the list so far.
   * Elements with empty text are emitted like any other.
   */
  method ExtractHeadings(byTag: seq<seq<string>>) returns (headings: seq<Heading>)
    requires |byTag| == |HeadingTags|
    ensures Enumerates(byTag, headings)
    ensures |headings| == Total(byTag)
    ensures forall k :: 0 <= k < |headings| ==> headings[k].position == k + 1
    ensures forall k :: 0 <= k < |headings| ==>
      1 <= headings[k].level <= |HeadingTags| && headings[k].tag == TagName(headings[k].level)
    ensures forall a, b :: 0 <= a <= b < |headings| ==> headings[a].level <= headings[b].level
  {
    headings := [];
    for i := 0 to |HeadingTags|
      invariant |headings| == CountBefore(byTag, i)
      invariant GroupsPlaced(byTag, headings, i)
    {
      var elements := byTag[i];
      for j := 0 to |elements|
        invariant |headings| == CountBefore(byTag, i) + j
        invariant GroupsPlaced(byTag, headings, i)
        invariant forall j' :: 0 <= j' < j ==> headings[Slot(byTag, i, j')] == Entry(byTag, i, j')
      {
        headings := headings + [Heading(HeadingTags[i], elements[j], j + 1, i + 1, |headings| + 1)];
      }
    }
    PositionsAreIndices(byTag, headings);
    LevelsAreTagIndices(byTag, headings);
    LevelsNonDecreasing(byTag, headings);
  }

  /** At most one list satisfies the characterisation: it fixes every record. */
  lemma EnumeratesUnique(byTag: seq<seq<string>>, hs1: seq<Heading>, hs2: seq<Heading>)
    requires |byTag| == |HeadingTags|
    requires Enumerates(byTag, hs1) && Enumerates(byTag, hs2)
    ensures hs1 == hs2
  {
    forall k | 0 <= k < |hs1|
      ensures hs1[k] == hs2[k]
    {
      var i, j := Locate(byTag, |byTag|, k);
      assert hs1[Slot(byTag, i, j)] == Entry(byTag, i, j) == hs2[Slot(byTag, i, j)];
    }
  }

  /** The k-th record's position is k + 1: positions run 1..n in list order. */
  lemma PositionsAreIndices(byTag: seq<seq<string>>, hs: seq<Heading>)
    requires |byTag| == |HeadingTags| && Enumerates(byTag, hs)
    ensures forall k :: 0 <= k < |hs| ==> hs[k].position == k + 1
  {
    forall k | 0 <= k < |hs|
      ensures hs[k].position == k + 1
    {
      var i, j := Locate(byTag, |byTag|, k);
      assert hs[Slot(byTag, i, j)] == Entry(byTag, i, j);
    }
  }

  /** Every level is 1..6 and names the record's tag. */
  lemma LevelsAreTagIndices(byTag: seq<seq<string>>, hs: seq<Heading>)
    requires |byTag| == |HeadingTags| && Enumerates(byTag, hs)
    ensures forall k :: 0 <= k < |hs| ==>
      1 <= hs[k].level <= |HeadingTags| && hs[k].tag == HeadingTags[hs[k].level - 1]
      && hs[k].tag == TagName(hs[k].level)
  {
    TagsSpellTheirLevel();
    forall k | 0 <= k < |hs|
      ensures 1 <= hs[k].level <= |HeadingTags| && hs[k].tag == HeadingTags[hs[k].level - 1]
    {
      var i, j := Locate(byTag, |byTag|, k);
      assert hs[Slot(byTag, i, j)] == Entry(byTag, i, j);
    }
  }

  /** The records of one level occupy exactly that tag's block of indices. */
  lemma LevelBlock(byTag: seq<seq<string>>, hs: seq<Heading>, level: nat)
    requires |byTag| == |HeadingTags| && Enumerates(byTag, hs)
    requires 1 <= level <= |HeadingTags|
    ensures forall k :: 0 <= k < |hs| ==>
      (hs[k].level == level <==> CountBefore(byTag, level - 1) <= k < CountBefore(byTag, level))
    ensures forall k :: 0 <= k < |hs| && k < CountBefore(byTag, level - 1) ==> hs[k].level < level
    ensures forall k :: CountBefore(byTag, level) <= k < |hs| ==> hs[k].level > level
  {
    CountBeforeMonotone(byTag, level, |byTag|);
    forall k | 0 <= k < |hs|
      ensures hs[k].level == level <==> CountBefore(byTag, level - 1) <= k < CountBefore(byTag, level)
      ensures k < CountBefore(byTag, level - 1) ==> hs[k].level < level
      ensures CountBefore(byTag, level) <= k ==> hs[k].level > level
    {
      var i, j := Locate(byTag, |byTag|, k);
      assert hs[Slot(byTag, i, j)] == Entry(byTag, i, j);
      BlockBounds(byTag, i, j, level - 1);
      BlockBounds(byTag, i, j, level);
    }
  }

  /** All h1 records come before any h2 record, and so on: the list is grouped by tag. */
  lemma LevelsNonDecreasing(byTag: seq<seq<string>>, hs: seq<Heading>)
    requires |byTag| == |HeadingTags| && Enumerates(byTag, hs)
    ensures forall a, b :: 0 <= a <= b < |hs| ==> hs[a].level <= hs[b].level
  {
    forall a, b | 0 <= a <= b < |hs|
      ensures hs[a].level <= hs[b].level
    {
      var ia, ja := Locate(byTag, |byTag|, a);
      var ib, jb := Locate(byTag, |byTag|, b);
      assert hs[Slot(byTag, ia, ja)] == Entry(byTag, ia, ja);
      assert hs[Slot(byTag, ib, jb)] == Entry(byTag, ib, jb);
      BlockBounds(byTag, ib, jb, ia);
      BlockBounds(byTag, ia, ja, ia);
    }
  }

  /** The records of the given level, in list order. */
  function AtLevel(hs: seq<Heading>, level: nat): (selected: seq<Heading>) {
    if |hs| == 0 then []
    else (if hs[0].level == level then [hs[0]] else []) + AtLevel(hs[1..], level)
  }

  lemma {:induction false} AtLevelAppend(a: seq<Heading>, b: seq<Heading>, level: nat)
    ensures AtLevel(a + b, level) == AtLevel(a, level) + AtLevel(b, level)
    decreases |a|
  {
    if |a| > 0 {
      assert (a + b)[1..] == a[1..] + b;
      AtLevelAppend(a[1..], b, level);
    } else {
      assert a + b == b;
    }
  }

  lemma {:induction false} AtLevelAll(hs: seq<Heading>, level: nat)
    requires forall k :: 0 <= k < |hs| ==> hs[k].level == level
    ensures AtLevel(hs, level) == hs
    decreases |hs|
  {
    if |hs| > 0 {
      AtLevelAll(hs[1..], level);
    }
  }

  lemma {:induction false} AtLevelNone(hs: seq<Heading>, level: nat)
    requires forall k :: 0 <= k < |hs| ==> hs[k].level != level
    ensures AtLevel(hs, level) == []
    decreases |hs|
  {
    if |hs| > 0 {
      AtLevelNone(hs[1..], level);
    }
  }

  /** Filtering by level cuts out exactly that tag's block. */
  lemma AtLevelIsBlock(byTag: seq<seq<string>>, hs: seq<Heading>, level: nat)
    requires |byTag| == |HeadingTags| && Enumerates(byTag, hs)
    requires 1 <= level <= |HeadingTags|
    ensures CountBefore(byTag, level - 1) <= CountBefore(byTag, level) <= |hs|
    ensures AtLevel(hs, level) == hs[CountBefore(byTag, level - 1)..CountBefore(byTag, level)]
  {
    var lo, hi := CountBefore(byTag, level - 1), CountBefore(byTag, level);
    CountBeforeMonotone(byTag, level, |byTag|);
    LevelBlock(byTag, hs, level);
    var before, block, after := hs[..lo], hs[lo..hi], hs[hi..];
    assert hs == (before + block) + after;
    AtLevelNone(before, level);
    AtLevelAll(block, level);
    AtLevelNone(after, level);
    AtLevelAppend(before + block, after, level);
    AtLevelAppend(before, block, level);
  }

  /**
   * Taken by themselves, the records of one level number their elements
   * 1..count consecutively and keep the elements' texts in parser order.
   */
  lemma PerLevelOrder(byTag: seq<seq<string>>, hs: seq<Heading>, level: nat)
    requires |byTag| == |HeadingTags| && Enumerates(byTag, hs)
    requires 1 <= level <= |HeadingTags|
    ensures |AtLevel(hs, level)| == |byTag[level - 1]|
    ensures forall j :: 0 <= j < |byTag[level - 1]| ==>
      AtLevel(hs, level)[j].order == j + 1 && AtLevel(hs, level)[j].text == byTag[level - 1][j]
      && AtLevel(hs, level)[j].tag == HeadingTags[level - 1]
  {
    AtLevelIsBlock(byTag, hs, level);
    var lo := CountBefore(byTag, level - 1);
    var block := AtLevel(hs, level);
    forall j | 0 <= j < |byTag[level - 1]|
      ensures block[j] == Entry(byTag, level - 1, j)
    {
      assert hs[Slot(byTag, level - 1, j)] == Entry(byTag, level - 1, j);
    }
  }

  // ---------------------------------------------------------------------
  // generate_change_verifier

  /** The heading texts, in list order. */
  function Texts(hs: seq<Heading>): (texts: seq<string>)
    ensures |texts| == |hs|
    ensures forall k :: 0 <= k < |hs| ==> texts[k] == hs[k].text
  {
    seq(|hs|, k requires 0 <= k < |hs| => hs[k].text)
  }

  /** Strings joined with no separator: `''.join(ss)`. */
  function Concat(ss: seq<string>): (joined: string) {
    if |ss| == 0 then "" else ss[0] + Concat(ss[1..])
  }

  /** The generator `''.join(h['text'] for h in headings)`, consuming one record at a time. */
  function JoinTexts(hs: seq<Heading>): (joined: string) {
    if |hs| == 0 then "" else hs[0].text + JoinTexts(hs[1..])
  }

  lemma {:induction false} ConcatAppend(a: seq<string>, b: seq<string>)
    ensures Concat(a + b) == Concat(a) + Concat(b)
    decreases |a|
  {
    if |a| == 0 {
      assert a + b == b;
    } else {
      assert (a + b)[1..] == a[1..] + b;
      ConcatAppend(a[1..], b);
    }
  }

  /** Joining the records' texts one by one is joining the list of their texts. */
  lemma {:induction false} JoinTextsIsConcat(hs: seq<Heading>)
    ensures JoinTexts(hs) == Concat(Texts(hs))
    decreases |hs|
  {
    if |hs| > 0 {
      JoinTextsIsConcat(hs[1..]);
      assert Texts(hs)[1..] == Texts(hs[1..]);
    }
  }

  /**
   * The change verifier: the hash of the title followed by the list of
   * heading texts joined with no separator.
   */
  function GenerateChangeVerifier(hash: string -> string, title: string, headings: seq<Heading>): (verifier: string)
    ensures verifier == hash(title + Concat(Texts(headings)))
  {
    JoinTextsIsConcat(headings);
    hash(title + JoinTexts(headings))
  }

  /**
   * The verifier depends on the title and the heading texts in list order
   * only; tag, order, level and position never reach the hash.
   */
  lemma VerifierIgnoresNumbering(hash: string -> string, title: string, a: seq<Heading>, b: seq<Heading>)
    requires |a| == |b| && forall k :: 0 <= k < |a| ==> a[k].text == b[k].text
    ensures GenerateChangeVerifier(hash, title, a) == GenerateChangeVerifier(hash, title, b)
  {
    assert Texts(a) == Texts(b);
  }

  /**
   * With no separator, the hash input is the bare concatenation: inputs with
   * equal concatenations collide under every hash, and under an injective
   * hash only those do.
   */
  lemma VerifierCollisions(hash: string -> string, t1: string, a: seq<Heading>, t2: string, b: seq<Heading>)
    ensures t1 + Concat(Texts(a)) == t2 + Concat(Texts(b)) ==>
      GenerateChangeVerifier(hash, t1, a) == GenerateChangeVerifier(hash, t2, b)
    ensures (forall x, y :: hash(x) == hash(y) ==> x == y) ==>
      (GenerateChangeVerifier(hash, t1, a) == GenerateChangeVerifier(hash, t2, b)
       <==> t1 + Concat(Texts(a)) == t2 + Concat(Texts(b)))
  {
  }

  /** The title "ab" with no headings and the title "a" with one heading "b" collide. */
  lemma TitleHeadingBoundaryCollision(hash: string -> string, h: Heading)
    requires h.text == "b"
    ensures GenerateChangeVerifier(hash, "ab", []) == GenerateChangeVerifier(hash, "a", [h])
  {
    var none: seq<Heading> := [];
    assert Texts(none) == [];
    assert Texts([h]) == ["b"];
    assert Concat(["b"]) == "b" + Concat([]);
    assert "ab" + Concat(Texts(none)) == "a" + Concat(Texts([h]));
  }

  /** The texts of the per-tag lists, all h1 texts first, then all h2 texts, and so on. */
  function ConcatGroups(byTag: seq<seq<string>>): (joined: string) {
    if |byTag| == 0 then "" else ConcatGroups(byTag[..|byTag| - 1]) + Concat(byTag[|byTag| - 1])
  }

  /** The records placed for one tag carry that tag's texts, in parser order. */
  lemma BlockTexts(byTag: seq<seq<string>>, hs: seq<Heading>, i: nat)
    requires i < |byTag| == |HeadingTags| && Enumerates(byTag, hs)
    ensures CountBefore(byTag, i + 1) <= |hs|
    ensures Texts(hs[CountBefore(byTag, i)..CountBefore(byTag, i + 1)]) == byTag[i]
  {
    var lo, hi := CountBefore(byTag, i), CountBefore(byTag, i + 1);
    CountBeforeMonotone(byTag, i + 1, |byTag|);
    forall j | 0 <= j < |byTag[i]|
      ensures Texts(hs[lo..hi])[j] == byTag[i][j]
    {
      assert hs[Slot(byTag, i, j)] == Entry(byTag, i, j);
    }
  }

  lemma {:induction false} PrefixJoinsToGroups(byTag: seq<seq<string>>, hs: seq<Heading>, n: nat)
    requires |byTag| == |HeadingTags| && Enumerates(byTag, hs)
    requires n <= |byTag|
    ensures CountBefore(byTag, n) <= |hs|
    ensures Concat(Texts(hs[..CountBefore(byTag, n)])) == ConcatGroups(byTag[..n])
    decreases n
  {
    CountBeforeMonotone(byTag, n, |byTag|);
    if n == 0 {
      assert Texts(hs[..0]) == [];
    } else {
      var lo, hi := CountBefore(byTag, n - 1), CountBefore(byTag, n);
      PrefixJoinsToGroups(byTag, hs, n - 1);
      BlockTexts(byTag, hs, n - 1);
      assert Texts(hs[..hi]) == Texts(hs[..lo]) + Texts(hs[lo..hi]);
      ConcatAppend(Texts(hs[..lo]), Texts(hs[lo..hi]));
      assert byTag[..n][..n - 1] == byTag[..n - 1];
    }
  }

  /**
   * For an extracted heading list the verifier is the hash of the title
   * followed by the h1 texts, then the h2 texts, and so on up to h6.
   */
  lemma VerifierOfExtracted(hash: string -> string, title: string, byTag: seq<seq<string>>, hs: seq<Heading>)
    requires |byTag| == |HeadingTags| && Enumerates(byTag, hs)
    ensures GenerateChangeVerifier(hash, title, hs) == hash(title + ConcatGroups(byTag))
  {
    PrefixJoinsToGroups(byTag, hs, |byTag|);
    assert hs[..Total(byTag)] == hs;
    assert byTag[..|byTag|] == byTag;
  }

  // ---------------------------------------------------------------------
  // get_page_data

  /** The dictionary get_page_data returns; `date` is a caller-supplied clock reading. */
  datatype PageData = PageData(
    url: string,
    title: string,
    body: string,
    date: int,
    changeVerifier: string,
    headings: seq<Heading>
  )

  /**
   * Assemble the page data from the rendered page's title, its per-tag
   * heading texts and its body text: the verifier is computed from the very
   * title and headings the record carries.
   */
  method GetPageData(hash: string -> string, url: string, title: string, byTag: seq<seq<string>>,
                     bodyText: string, now: int) returns (data: PageData)
    requires |byTag| == |HeadingTags|
    ensures data.url == url && data.title == title && data.body == bodyText && data.date == now
    ensures Enumerates(byTag, data.headings)
    ensures data.changeVerifier == GenerateChangeVerifier(hash, data.title, data.headings)
    ensures data.changeVerifier == hash(title + ConcatGroups(byTag))
  {
    var headings := ExtractHeadings(byTag);
    data := PageData(url, title, bodyText, now, GenerateChangeVerifier(hash, title, headings), headings);
    VerifierOfExtracted(hash, title, byTag, headings);
  }
}
