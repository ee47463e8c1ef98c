/**
 * What the HTML libraries extract from a page, taken as given, and the
 * insertion-ordered dictionary the parsers fill from it.
 */
module Dom {
  import opened Wrappers
  import opened Text

  /** A label cell (`td.bgn`): its text and the text of the next `td` sibling, if there is one. */
  datatype LabelCell = LabelCell(text: string, next: Option<string>)

  /** A result-row anchor (class contains `aRucs`): its `h4` texts, its `p` texts and its whole text. */
  datatype Anchor = Anchor(headings: seq<string>, paragraphs: seq<string>, text: string)

  /**
   * The parts of a parsed page the scraper reads: the label cells in document
   * order, the texts of the `list-group-item` divs, the text content of the
   * whole document, and the result-row anchors.
   */
  datatype Document = Document(
    labelCells: seq<LabelCell>,
    listItems: seq<string>,
    plainText: string,
    anchors: seq<Anchor>)

  /** A response body: its source text and what the HTML parser makes of it. */
  datatype Html = Html(source: string, dom: Document)

  /** A `Dictionary<string, string>` as its entries in enumeration (insertion) order. */
  type Entries = seq<(string, string)>

  function Keys(m: Entries): (ks: seq<string>)
    ensures |ks| == |m|
    ensures forall i :: 0 <= i < |m| ==> ks[i] == m[i].0
  {
    seq(|m|, i requires 0 <= i < |m| => m[i].0)
  }

  /** No key occurs twice: what a Dictionary guarantees. */
  predicate DistinctKeys(m: Entries) {
    forall i, j :: 0 <= i < j < |m| ==> m[i].0 != m[j].0
  }

  /** The position of the first occurrence of `x` in `s`. */
  function FirstIndex<T(==)>(s: seq<T>, x: T): (i: nat)
    requires x in s
    ensures i < |s| && s[i] == x && x !in s[..i]
  {
    if s[0] == x then 0
    else
      var i := FirstIndex(s[1..], x);
      assert s[1..][..i] == s[1..i + 1];
      assert s[..i + 1] == [s[0]] + s[1..i + 1];
      i + 1
  }

  /** Only one position satisfies the contract of FirstIndex. */
  lemma FirstIndexUnique<T>(s: seq<T>, x: T, i: nat)
    requires x in s && i < |s| && s[i] == x && x !in s[..i]
    ensures FirstIndex(s, x) == i
  {
    var k := FirstIndex(s, x);
    assert forall j :: 0 <= j < i ==> s[j] == s[..i][j];
    assert forall j :: 0 <= j < k ==> s[j] == s[..k][j];
  }

  /** `TryGetValue` / `GetValueOrDefault`: the value stored under exactly `k`. */
  function Get(m: Entries, k: string): (r: Option<string>)
    ensures r.None? <==> k !in Keys(m)
    ensures r.Some? ==> exists i :: 0 <= i < |m| && m[i] == (k, r.value)
  {
    if k in Keys(m) then Some(m[FirstIndex(Keys(m), k)].1) else None
  }

  /**
   * The indexer write `m[k] = v`: an existing key keeps its place and takes
   * the new value; a new key is appended.
   */
  function Put(m: Entries, k: string, v: string): (r: Entries)
    ensures Keys(r) == if k in Keys(m) then Keys(m) else Keys(m) + [k]
    ensures Get(r, k) == Some(v)
  {
    if k in Keys(m) then
      var i := FirstIndex(Keys(m), k);
      var r := m[i := (k, v)];
      assert Keys(r) == Keys(m);
      r
    else
      var r := m + [(k, v)];
      assert Keys(r) == Keys(m) + [k];
      assert Keys(r)[..|m|] == Keys(m);
      FirstIndexUnique(Keys(r), k, |m|);
      r
  }

  /** A write under one key leaves every other key's value alone. */
  lemma {:induction false} PutOther(m: Entries, k: string, v: string, k': string)
    requires k' != k
    ensures Get(Put(m, k, v), k') == Get(m, k')
  {
    var r := Put(m, k, v);
    if k' in Keys(m) {
      var i := FirstIndex(Keys(m), k');
      if k !in Keys(m) {
        assert Keys(r)[..i] == Keys(m)[..i];
      }
      FirstIndexUnique(Keys(r), k', i);
    }
  }

  /** Writes keep the keys distinct. */
  lemma {:induction false} PutDistinct(m: Entries, k: string, v: string)
    ensures DistinctKeys(m) ==> DistinctKeys(Put(m, k, v))
  {
    var r := Put(m, k, v);
    if !DistinctKeys(m) { return; }
    forall i, j | 0 <= i < j < |r| ensures r[i].0 != r[j].0 {
      assert Keys(r)[i] == r[i].0 && Keys(r)[j] == r[j].0;
      if k !in Keys(m) && j == |m| {
        assert r[i].0 == Keys(m)[i];
      } else {
        assert Keys(m)[i] == m[i].0 && Keys(m)[j] == m[j].0;
      }
    }
  }

  /** The (key, value) pair of a label cell: trimmed label, decoded trimmed neighbour text or "". */
  function CellEntry(c: LabelCell): (e: (string, string))
    ensures e.0 == Trim(c.text)
    ensures c.next.None? ==> e.1 == ""
  {
    (Trim(c.text), HtmlDecode(if c.next.Some? then Trim(c.next.value) else ""))
  }

  /** `Put` applied to each entry in order: what a loop of indexer writes leaves behind. */
  function PutAll(m: Entries, es: Entries): (r: Entries)
    ensures DistinctKeys(m) ==> DistinctKeys(r)
    ensures es != [] ==> r != []
    decreases |es|
  {
    if es == [] then m
    else
      var r := PutAll(m, es[..|es| - 1]);
      PutDistinct(r, es[|es| - 1].0, es[|es| - 1].1);
      Put(r, es[|es| - 1].0, es[|es| - 1].1)
  }

  /** One more entry is one more write. */
  lemma PutAllStep(m: Entries, es: Entries, e: (string, string))
    ensures PutAll(m, es + [e]) == Put(PutAll(m, es), e.0, e.1)
  {
    assert (es + [e])[..|es|] == es;
  }

  /** Writing the entries up to i + 1 is writing those up to i, then entry i. */
  lemma PutAllPrefixStep(m: Entries, es: Entries, i: nat)
    requires i < |es|
    ensures PutAll(m, es[..i + 1]) == Put(PutAll(m, es[..i]), es[i].0, es[i].1)
  {
    assert es[..i + 1][..i] == es[..i];
  }

  /** The value of the last entry with key k. */
  function LastValue(es: Entries, k: string): (r: Option<string>)
    ensures r.None? <==> k !in Keys(es)
    ensures r.Some? ==> exists i :: 0 <= i < |es| && es[i] == (k, r.value)
  {
    if es == [] then None
    else if es[|es| - 1].0 == k then Some(es[|es| - 1].1)
    else
      var p := es[..|es| - 1];
      assert Keys(es) == Keys(p) + [es[|es| - 1].0];
      var r := LastValue(p, k);
      assert r.Some? ==> exists i :: 0 <= i < |p| && p[i] == (k, r.value);
      r
  }

  /** After a run of writes, each key holds the value written last, or what it held before. */
  lemma {:induction false} PutAllGet(m: Entries, es: Entries, k: string)
    ensures Get(PutAll(m, es), k) == LastValue(es, k).OrElse(Get(m, k))
    decreases |es|
  {
    if es != [] {
      var p := es[..|es| - 1];
      var e := es[|es| - 1];
      PutAllGet(m, p, k);
      if e.0 != k {
        PutOther(PutAll(m, p), e.0, e.1, k);
      }
    }
  }
}
