/** improc/imgProc.py: `ColorPixelManager`, an index from each colour of an
    image to the positions that carry it, and the grid-shape loop of
    `showImageFiles`. */
module ImgProc {
  import opened Python

  /** A pixel position (row, column). */
  type Pos = (int, int)

  // ---------------------------------------------------------------------
  // Colour keys

  /** The dictionary key of a colour: `",".join(str(v) for v in values)`,
      written out value by value (`ColorKeyIsJoin` relates the two). */
  function ColorKey(values: seq<int>): string
    decreases |values|
  {
    if |values| == 0 then ""
    else if |values| == 1 then Str(values[0])
    else Str(values[0]) + "," + ColorKey(values[1..])
  }

  /** `str(v)` of each value. */
  function StrParts(values: seq<int>): (parts: seq<string>)
    ensures |parts| == |values|
    ensures forall i :: 0 <= i < |values| ==> parts[i] == Str(values[i])
  {
    if values == [] then [] else [Str(values[0])] + StrParts(values[1..])
  }

  lemma {:induction false} ColorKeyIsJoin(values: seq<int>)
    ensures ColorKey(values) == Join(StrParts(values))
  {
    if |values| >= 2 {
      ColorKeyIsJoin(values[1..]);
      assert StrParts(values)[1..] == StrParts(values[1..]);
    }
  }

  /** Reading a key back: split at the commas and `int()` each field. */
  function ParseColorKey(key: string): seq<int> {
    var fields := Split(key);
    seq(|fields|, i requires 0 <= i < |fields| => IntOfStr(fields[i]))
  }

  /** A key determines the channel values it was built from. */
  lemma ColorKeyRoundTrip(values: seq<int>)
    requires |values| > 0
    ensures ParseColorKey(ColorKey(values)) == values
  {
    var parts := StrParts(values);
    ColorKeyIsJoin(values);
    forall i | 0 <= i < |parts| ensures ',' !in parts[i] {
      assert parts[i] == Str(values[i]);
    }
    SplitJoin(parts);
    var fields := Split(ColorKey(values));
    assert fields == parts;
    var back := ParseColorKey(ColorKey(values));
    assert |back| == |values|;
    forall i | 0 <= i < |values| ensures back[i] == values[i] {
      assert back[i] == IntOfStr(parts[i]);
      StrRoundTrip(values[i]);
    }
  }

  /** Two colours share a key exactly when they have the same channel values,
      so a dictionary keyed this way never merges two colours. */
  lemma ColorKeyInjective(a: seq<int>, b: seq<int>)
    ensures ColorKey(a) == ColorKey(b) <==> a == b
  {
    if ColorKey(a) == ColorKey(b) && |a| > 0 && |b| > 0 {
      ColorKeyRoundTrip(a);
      ColorKeyRoundTrip(b);
    }
  }

  // ---------------------------------------------------------------------
  // The index as a function of the scanned pixels

  /** One step of the scan: the key of a pixel and its position. */
  datatype Entry = Entry(key: string, pos: Pos)

  /** `pixelDict`: its keys in insertion order and the list under each key. */
  datatype Table = Table(order: seq<string>, lists: map<string, seq<Pos>>)

  /** One iteration of the constructor's inner loop: create the list on a
      key's first occurrence, then append the position. */
  function Insert(t: Table, e: Entry): Table
  {
    if e.key in t.lists then Table(t.order, t.lists[e.key := t.lists[e.key] + [e.pos]])
    else Table(t.order + [e.key], t.lists[e.key := [e.pos]])
  }

  /** The dictionary after scanning `es` in order. */
  function Build(es: seq<Entry>): Table {
    if es == [] then Table([], map[]) else Insert(Build(es[..|es| - 1]), es[|es| - 1])
  }

  /** The keys occurring in `es`. */
  function KeysOf(es: seq<Entry>): set<string> {
    if es == [] then {} else KeysOf(es[..|es| - 1]) + {es[|es| - 1].key}
  }

  lemma {:induction false} KeysOfMembers(es: seq<Entry>, k: string)
    ensures k in KeysOf(es) <==> exists i :: 0 <= i < |es| && es[i].key == k
  {
    if es != [] {
      var init := es[..|es| - 1];
      KeysOfMembers(init, k);
      if k in KeysOf(init) {
        var i :| 0 <= i < |init| && init[i].key == k;
        assert es[i] == init[i];
      }
      if exists i :: 0 <= i < |es| && es[i].key == k {
        var i :| 0 <= i < |es| && es[i].key == k;
        if i < |init| { assert init[i] == es[i]; }
      }
    }
  }

  /** Reference definition of a list: the positions of the entries with this
      key, in scan order. */
  function PositionsOf(es: seq<Entry>, key: string): seq<Pos> {
    if es == [] then []
    else PositionsOf(es[..|es| - 1], key) + (if es[|es| - 1].key == key then [es[|es| - 1].pos] else [])
  }

  /** Index of the first entry with this key, |es| if there is none. */
  function FirstIndex(es: seq<Entry>, key: string): (i: nat)
    ensures i <= |es|
    ensures i < |es| ==> es[i].key == key
    ensures forall j :: 0 <= j < i ==> es[j].key != key
  {
    if es == [] then 0 else if es[0].key == key then 0 else 1 + FirstIndex(es[1..], key)
  }

  predicate Distinct(s: seq<string>) {
    forall i, j :: 0 <= i < j < |s| ==> s[i] != s[j]
  }

  /** Sum of the list lengths, over the keys in `order`. */
  function TotalLength(order: seq<string>, lists: map<string, seq<Pos>>): nat {
    if order == [] then 0
    else TotalLength(order[..|order| - 1], lists)
         + (if order[|order| - 1] in lists then |lists[order[|order| - 1]]| else 0)
  }

  /** `order` lists the dictionary's keys, each once. */
  ghost predicate OrderMatches(t: Table) {
    && Distinct(t.order)
    && (forall k :: k in t.lists <==> k in t.order)
  }

  /** The keys are those scanned, each list the positions of its key. */
  ghost predicate ListsMatch(t: Table, es: seq<Entry>) {
    && (forall k :: k in t.lists <==> k in KeysOf(es))
    && (forall k :: k in t.lists ==> t.lists[k] == PositionsOf(es, k))
  }

  /** Keys stand in the order of their first occurrence in the scan. */
  ghost predicate FirstOccurrenceOrder(t: Table, es: seq<Entry>) {
    forall i, j :: 0 <= i < j < |t.order| ==> FirstIndex(es, t.order[i]) < FirstIndex(es, t.order[j])
  }

  /** `t` is the dictionary built from `es`: keys without repetition, in the
      order of their first occurrence, each list the positions of its key,
      and as many positions stored as entries scanned. */
  ghost predicate Indexes(t: Table, es: seq<Entry>) {
    && OrderMatches(t)
    && ListsMatch(t, es)
    && FirstOccurrenceOrder(t, es)
    && TotalLength(t.order, t.lists) == |es|
  }

  lemma {:induction false} TotalLengthOther(order: seq<string>, lists: map<string, seq<Pos>>, k: string, v: seq<Pos>)
    requires k !in order
    ensures TotalLength(order, lists[k := v]) == TotalLength(order, lists)
  {
    if order != [] {
      TotalLengthOther(order[..|order| - 1], lists, k, v);
    }
  }

  lemma {:induction false} TotalLengthAppend(order: seq<string>, lists: map<string, seq<Pos>>, k: string, p: Pos)
    requires Distinct(order) && k in order && k in lists
    ensures TotalLength(order, lists[k := lists[k] + [p]]) == TotalLength(order, lists) + 1
  {
    var init := order[..|order| - 1];
    var last := order[|order| - 1];
    if last == k {
      assert k !in init;
      TotalLengthOther(init, lists, k, lists[k] + [p]);
    } else {
      assert k in init by {
        var i :| 0 <= i < |order| && order[i] == k;
        assert i < |order| - 1 && init[i] == k;
      }
      TotalLengthAppend(init, lists, k, p);
    }
  }

  lemma InsertKeepsOrder(t: Table, e: Entry)
    requires OrderMatches(t)
    ensures OrderMatches(Insert(t, e))
  {
  }

  lemma {:induction false} PositionsOfAbsent(es: seq<Entry>, k: string)
    requires k !in KeysOf(es)
    ensures PositionsOf(es, k) == []
  {
    if es != [] {
      PositionsOfAbsent(es[..|es| - 1], k);
    }
  }

  lemma InsertKeepsLists(t: Table, es: seq<Entry>, e: Entry)
    requires ListsMatch(t, es)
    ensures ListsMatch(Insert(t, e), es + [e])
  {
    var es' := es + [e];
    assert es'[..|es'| - 1] == es;
    assert KeysOf(es') == KeysOf(es) + {e.key};
    forall k ensures PositionsOf(es', k) == PositionsOf(es, k) + (if e.key == k then [e.pos] else []) {
    }
    if e.key !in t.lists {
      PositionsOfAbsent(es, e.key);
    }
  }

  lemma FirstIndexSnoc(es: seq<Entry>, e: Entry, k: string)
    ensures FirstIndex(es + [e], k) == (if FirstIndex(es, k) < |es| then FirstIndex(es, k)
                                        else if e.key == k then |es| else |es| + 1)
  {
    var es' := es + [e];
    var f := FirstIndex(es, k);
    if f < |es| {
      assert es'[f] == es[f];
    } else if e.key == k {
      assert es'[|es|] == e;
    }
  }

  /** Keys already scanned keep their first index when one more entry is
      scanned, and that index lies inside the old scan. */
  lemma ScannedKeysKeepFirstIndex(t: Table, es: seq<Entry>, e: Entry)
    requires OrderMatches(t) && ListsMatch(t, es)
    ensures forall i :: 0 <= i < |t.order| ==>
              FirstIndex(es, t.order[i]) < |es| && FirstIndex(es + [e], t.order[i]) == FirstIndex(es, t.order[i])
  {
    forall i | 0 <= i < |t.order|
      ensures FirstIndex(es, t.order[i]) < |es| && FirstIndex(es + [e], t.order[i]) == FirstIndex(es, t.order[i])
    {
      var k := t.order[i];
      assert k in KeysOf(es);
      KeysOfMembers(es, k);
      FirstIndexSnoc(es, e, k);
    }
  }

  /** Scanning a key already present leaves the key order as it was. */
  lemma PresentKeyKeepsFirstOccurrence(t: Table, es: seq<Entry>, e: Entry)
    requires OrderMatches(t) && ListsMatch(t, es) && FirstOccurrenceOrder(t, es)
    requires e.key in t.lists
    ensures FirstOccurrenceOrder(Insert(t, e), es + [e])
  {
    ScannedKeysKeepFirstIndex(t, es, e);
    assert Insert(t, e).order == t.order;
  }

  /** A new key goes last, and its first index is the end of the old scan. */
  lemma NewKeyKeepsFirstOccurrence(t: Table, es: seq<Entry>, e: Entry)
    requires OrderMatches(t) && ListsMatch(t, es) && FirstOccurrenceOrder(t, es)
    requires e.key !in t.lists
    ensures FirstOccurrenceOrder(Insert(t, e), es + [e])
  {
    var t' := Insert(t, e);
    var es' := es + [e];
    ScannedKeysKeepFirstIndex(t, es, e);
    assert e.key !in KeysOf(es);
    KeysOfMembers(es, e.key);
    FirstIndexSnoc(es, e, e.key);
    assert t'.order == t.order + [e.key];
    forall i, j | 0 <= i < j < |t'.order| ensures FirstIndex(es', t'.order[i]) < FirstIndex(es', t'.order[j]) {
      if j < |t.order| {
        assert t'.order[i] == t.order[i] && t'.order[j] == t.order[j];
      } else {
        assert t'.order[i] == t.order[i] && t'.order[j] == e.key;
      }
    }
  }

  lemma InsertKeepsFirstOccurrence(t: Table, es: seq<Entry>, e: Entry)
    requires OrderMatches(t) && ListsMatch(t, es) && FirstOccurrenceOrder(t, es)
    ensures FirstOccurrenceOrder(Insert(t, e), es + [e])
  {
    if e.key in t.lists {
      PresentKeyKeepsFirstOccurrence(t, es, e);
    } else {
      NewKeyKeepsFirstOccurrence(t, es, e);
    }
  }

  lemma InsertKeepsTotal(t: Table, es: seq<Entry>, e: Entry)
    requires OrderMatches(t) && TotalLength(t.order, t.lists) == |es|
    ensures TotalLength(Insert(t, e).order, Insert(t, e).lists) == |es| + 1
  {
    if e.key in t.lists {
      TotalLengthAppend(t.order, t.lists, e.key, e.pos);
    } else {
      var t' := Insert(t, e);
      TotalLengthOther(t.order, t.lists, e.key, [e.pos]);
      assert t'.order[..|t'.order| - 1] == t.order;
    }
  }

  /** One scan step keeps the dictionary an index of the entries seen. */
  lemma InsertKeepsIndex(t: Table, es: seq<Entry>, e: Entry)
    requires Indexes(t, es)
    ensures Indexes(Insert(t, e), es + [e])
  {
    InsertKeepsOrder(t, e);
    InsertKeepsLists(t, es, e);
    InsertKeepsFirstOccurrence(t, es, e);
    InsertKeepsTotal(t, es, e);
  }

  /** The dictionary built from a scan is an index of that scan. */
  lemma {:induction false} BuildIndexes(es: seq<Entry>)
    ensures Indexes(Build(es), es)
  {
    if es != [] {
      var init, e := es[..|es| - 1], es[|es| - 1];
      assert init + [e] == es;
      assert Build(es) == Insert(Build(init), e);
      BuildIndexes(init);
      InsertKeepsIndex(Build(init), init, e);
    }
  }

  /** The keys of the built dictionary are the scanned keys. */
  lemma BuildKeys(es: seq<Entry>, k: string)
    ensures k in Build(es).lists <==> k in KeysOf(es)
  {
    BuildIndexes(es);
  }

  /** Each built list holds the positions scanned under its key. */
  lemma BuildList(es: seq<Entry>, k: string)
    requires k in Build(es).lists
    ensures Build(es).lists[k] == PositionsOf(es, k)
  {
    BuildIndexes(es);
  }

  /** The keys of the built dictionary follow their first occurrence. */
  lemma BuildFirstOccurrence(es: seq<Entry>)
    ensures FirstOccurrenceOrder(Build(es), es)
  {
    BuildIndexes(es);
  }

  /** The built dictionary stores one position per scanned entry. */
  lemma BuildTotal(es: seq<Entry>)
    ensures TotalLength(Build(es).order, Build(es).lists) == |es|
  {
    BuildIndexes(es);
  }

  lemma {:induction false} PositionsOfMembers(es: seq<Entry>, key: string, p: Pos)
    ensures p in PositionsOf(es, key) <==> Entry(key, p) in es
  {
    if es != [] {
      var init := es[..|es| - 1];
      PositionsOfMembers(init, key, p);
      assert es == init + [es[|es| - 1]];
    }
  }

  /** Row-major order of positions. */
  predicate Before(p: Pos, q: Pos) {
    p.0 < q.0 || (p.0 == q.0 && p.1 < q.1)
  }

  predicate RowMajorIncreasing(ps: seq<Pos>) {
    forall i, j :: 0 <= i < j < |ps| ==> Before(ps[i], ps[j])
  }

  ghost predicate ScanIncreasing(es: seq<Entry>) {
    forall i, j :: 0 <= i < j < |es| ==> Before(es[i].pos, es[j].pos)
  }

  /** A scan in row-major order yields lists in row-major order. */
  lemma {:induction false} PositionsOfIncreasing(es: seq<Entry>, key: string)
    requires ScanIncreasing(es)
    ensures RowMajorIncreasing(PositionsOf(es, key))
  {
    if es != [] {
      var init := es[..|es| - 1];
      var last := es[|es| - 1];
      PositionsOfIncreasing(init, key);
      if last.key == key {
        var ps := PositionsOf(init, key);
        forall i | 0 <= i < |ps| ensures Before(ps[i], last.pos) {
          PositionsOfMembers(init, key, ps[i]);
          var m :| 0 <= m < |init| && init[m] == Entry(key, ps[i]);
          assert es[m] == init[m];
        }
      }
    }
  }

  // ---------------------------------------------------------------------
  // The scan of an image

  /** The channel values of pixel (r, c): `srcImg.item(r, c, ch)` for each ch. */
  function PixelValues(src: array3<Byte>, r: int, c: int): (vs: seq<int>)
    reads src
    requires 0 <= r < src.Length0 && 0 <= c < src.Length1
    ensures |vs| == src.Length2
    ensures forall ch :: 0 <= ch < src.Length2 ==> vs[ch] == src[r, c, ch] as int
  {
    Channels(src, r, c, src.Length2)
  }

  /** Channels 0 .. n-1 of pixel (r, c). */
  function Channels(src: array3<Byte>, r: int, c: int, n: int): (vs: seq<int>)
    reads src
    requires 0 <= r < src.Length0 && 0 <= c < src.Length1 && 0 <= n <= src.Length2
    ensures |vs| == n
    ensures forall ch :: 0 <= ch < n ==> vs[ch] == src[r, c, ch] as int
  {
    if n == 0 then [] else Channels(src, r, c, n - 1) + [src[r, c, n - 1] as int]
  }

  function PixelKey(src: array3<Byte>, r: int, c: int): string
    reads src
    requires 0 <= r < src.Length0 && 0 <= c < src.Length1
  {
    ColorKey(PixelValues(src, r, c))
  }

  /** The key of every pixel, row by row: the image as the scan sees it. */
  ghost function KeyGrid(src: array3<Byte>): (g: seq<seq<string>>)
    reads src
    ensures |g| == src.Length0
    ensures forall r :: 0 <= r < |g| ==> |g[r]| == src.Length1
  {
    KeyRows(src, src.Length0)
  }

  ghost function KeyRows(src: array3<Byte>, n: int): (g: seq<seq<string>>)
    reads src
    requires 0 <= n <= src.Length0
    ensures |g| == n
    ensures forall r :: 0 <= r < n ==> |g[r]| == src.Length1
  {
    if n == 0 then [] else KeyRows(src, n - 1) + [KeyRow(src, n - 1, src.Length1)]
  }

  ghost function KeyRow(src: array3<Byte>, r: int, n: int): (row: seq<string>)
    reads src
    requires 0 <= r < src.Length0 && 0 <= n <= src.Length1
    ensures |row| == n
  {
    if n == 0 then [] else KeyRow(src, r, n - 1) + [PixelKey(src, r, n - 1)]
  }

  lemma {:induction false} KeyRowAt(src: array3<Byte>, r: int, n: int, c: int)
    requires 0 <= r < src.Length0 && 0 <= c < n <= src.Length1
    ensures KeyRow(src, r, n)[c] == PixelKey(src, r, c)
  {
    if c < n - 1 {
      KeyRowAt(src, r, n - 1, c);
    }
  }

  lemma {:induction false} KeyRowsAt(src: array3<Byte>, n: int, r: int)
    requires 0 <= r < n <= src.Length0
    ensures KeyRows(src, n)[r] == KeyRow(src, r, src.Length1)
  {
    if r < n - 1 {
      KeyRowsAt(src, n - 1, r);
    }
  }

  /** The grid holds each pixel's key. */
  lemma KeyGridAt(src: array3<Byte>, r: int, c: int)
    requires 0 <= r < src.Length0 && 0 <= c < src.Length1
    ensures KeyGrid(src)[r][c] == PixelKey(src, r, c)
  {
    KeyRowsAt(src, src.Length0, r);
    KeyRowAt(src, r, src.Length1, c);
  }

  lemma KeyGridRow(src: array3<Byte>, r: int)
    requires 0 <= r < src.Length0
    ensures forall c :: 0 <= c < src.Length1 ==> KeyGrid(src)[r][c] == PixelKey(src, r, c)
  {
    forall c | 0 <= c < src.Length1 ensures KeyGrid(src)[r][c] == PixelKey(src, r, c) {
      KeyGridAt(src, r, c);
    }
  }

  /** The entries of row `r`, columns 0 .. c-1. */
  function RowEntries(g: seq<seq<string>>, r: int, c: int): seq<Entry>
    requires 0 <= r < |g| && 0 <= c <= |g[r]|
    decreases c
  {
    if c == 0 then [] else RowEntries(g, r, c - 1) + [Entry(g[r][c - 1], (r, c - 1))]
  }

  /** The entries of rows 0 .. r-1, in the constructor's row-major order. */
  function ImageEntries(g: seq<seq<string>>, r: int): seq<Entry>
    requires 0 <= r <= |g|
    decreases r
  {
    if r == 0 then [] else ImageEntries(g, r - 1) + RowEntries(g, r - 1, |g[r - 1]|)
  }

  /** What a scanned entry is: a position in the first `rows` rows, under its
      own key. */
  predicate FaithfulEntry(g: seq<seq<string>>, rows: int, e: Entry) {
    && 0 <= e.pos.0 < rows <= |g| && 0 <= e.pos.1 < |g[e.pos.0]|
    && e.key == g[e.pos.0][e.pos.1]
  }

  lemma {:induction false} RowScan(g: seq<seq<string>>, r: int, c: int)
    requires 0 <= r < |g| && 0 <= c <= |g[r]|
    ensures var es := RowEntries(g, r, c);
            && |es| == c
            && (forall i :: 0 <= i < |es| ==> FaithfulEntry(g, r + 1, es[i]) && es[i].pos.0 == r && es[i].pos.1 < c)
            && (forall col :: 0 <= col < c ==> Entry(g[r][col], (r, col)) in es)
            && ScanIncreasing(es)
  {
    if c > 0 {
      RowScan(g, r, c - 1);
    }
  }

  lemma {:induction false} ImageLength(g: seq<seq<string>>, cols: nat, r: int)
    requires forall i :: 0 <= i < |g| ==> |g[i]| == cols
    requires 0 <= r <= |g|
    ensures |ImageEntries(g, r)| == r * cols
  {
    if r > 0 {
      ImageLength(g, cols, r - 1);
      RowScan(g, r - 1, cols);
      assert (r - 1) * cols + cols == r * cols;
    }
  }

  lemma {:induction false} ImageFaithful(g: seq<seq<string>>, r: int)
    requires 0 <= r <= |g|
    ensures forall i :: 0 <= i < |ImageEntries(g, r)| ==> FaithfulEntry(g, r, ImageEntries(g, r)[i])
  {
    if r > 0 {
      ImageFaithful(g, r - 1);
      RowScan(g, r - 1, |g[r - 1]|);
      var a := ImageEntries(g, r - 1);
      var b := RowEntries(g, r - 1, |g[r - 1]|);
      forall i | 0 <= i < |a + b| ensures FaithfulEntry(g, r, (a + b)[i]) {
        if i < |a| {
          assert FaithfulEntry(g, r - 1, a[i]);
        } else {
          assert FaithfulEntry(g, r, b[i - |a|]);
        }
      }
    }
  }

  lemma {:induction false} ImageCovers(g: seq<seq<string>>, r: int)
    requires 0 <= r <= |g|
    ensures forall row, col :: 0 <= row < r && 0 <= col < |g[row]| ==> Entry(g[row][col], (row, col)) in ImageEntries(g, r)
  {
    if r > 0 {
      ImageCovers(g, r - 1);
      RowScan(g, r - 1, |g[r - 1]|);
      var a := ImageEntries(g, r - 1);
      var b := RowEntries(g, r - 1, |g[r - 1]|);
      forall row, col | 0 <= row < r && 0 <= col < |g[row]| ensures Entry(g[row][col], (row, col)) in a + b {
        if row < r - 1 {
          assert Entry(g[row][col], (row, col)) in a;
        } else {
          assert Entry(g[row][col], (row, col)) in b;
        }
      }
    }
  }

  lemma {:induction false} ImageIncreasing(g: seq<seq<string>>, r: int)
    requires 0 <= r <= |g|
    ensures ScanIncreasing(ImageEntries(g, r))
  {
    if r > 0 {
      ImageIncreasing(g, r - 1);
      ImageFaithful(g, r - 1);
      RowScan(g, r - 1, |g[r - 1]|);
      var a := ImageEntries(g, r - 1);
      var b := RowEntries(g, r - 1, |g[r - 1]|);
      var es := a + b;
      forall i, j | 0 <= i < j < |es| ensures Before(es[i].pos, es[j].pos) {
        if j < |a| {
          assert es[i] == a[i] && es[j] == a[j];
        } else if i < |a| {
          assert FaithfulEntry(g, r - 1, a[i]);
          assert es[i] == a[i] && es[j] == b[j - |a|];
        } else {
          assert es[i] == b[i - |a|] && es[j] == b[j - |a|];
        }
      }
    }
  }

  /** Every position is in the list of its own key. */
  predicate CoversGrid(g: seq<seq<string>>, lists: map<string, seq<Pos>>) {
    forall r, c :: 0 <= r < |g| && 0 <= c < |g[r]| ==> g[r][c] in lists && (r, c) in lists[g[r][c]]
  }

  /** Every list is in row-major order. */
  predicate ListsSorted(lists: map<string, seq<Pos>>) {
    forall k :: k in lists ==> RowMajorIncreasing(lists[k])
  }

  lemma GridCovered(g: seq<seq<string>>)
    ensures CoversGrid(g, Build(ImageEntries(g, |g|)).lists)
  {
    var es := ImageEntries(g, |g|);
    ImageCovers(g, |g|);
    forall r, c | 0 <= r < |g| && 0 <= c < |g[r]|
      ensures g[r][c] in Build(es).lists && (r, c) in Build(es).lists[g[r][c]]
    {
      var i :| 0 <= i < |es| && es[i] == Entry(g[r][c], (r, c));
      KeysOfMembers(es, g[r][c]);
      BuildKeys(es, g[r][c]);
      BuildList(es, g[r][c]);
      PositionsOfMembers(es, g[r][c], (r, c));
    }
  }

  /** A position found in a list lies in the grid under that list's key. */
  lemma OwnPosition(g: seq<seq<string>>, k: string, p: Pos)
    requires k in Build(ImageEntries(g, |g|)).lists && p in Build(ImageEntries(g, |g|)).lists[k]
    ensures 0 <= p.0 < |g| && 0 <= p.1 < |g[p.0]| && k == g[p.0][p.1]
  {
    var es := ImageEntries(g, |g|);
    BuildList(es, k);
    PositionsOfMembers(es, k, p);
    var i :| 0 <= i < |es| && es[i] == Entry(k, p);
    ImageFaithful(g, |g|);
    assert FaithfulEntry(g, |g|, es[i]);
  }

  lemma GridSorted(g: seq<seq<string>>)
    ensures ListsSorted(Build(ImageEntries(g, |g|)).lists)
  {
    var es := ImageEntries(g, |g|);
    ImageIncreasing(g, |g|);
    forall k | k in Build(es).lists ensures RowMajorIncreasing(Build(es).lists[k]) {
      BuildList(es, k);
      PositionsOfIncreasing(es, k);
    }
  }

  lemma GridListsNonEmpty(g: seq<seq<string>>)
    ensures forall k :: k in Build(ImageEntries(g, |g|)).lists ==> |Build(ImageEntries(g, |g|)).lists[k]| > 0
  {
    var es := ImageEntries(g, |g|);
    var t := Build(es);
    forall k | k in t.lists ensures |t.lists[k]| > 0 {
      BuildKeys(es, k);
      BuildList(es, k);
      KeysOfMembers(es, k);
      var i :| 0 <= i < |es| && es[i].key == k;
      PositionsOfMembers(es, k, es[i].pos);
      assert es[i] == Entry(k, es[i].pos);
    }
  }

  /** The facts `ColorPixelManager.Valid` needs about a scanned grid. */
  lemma GridTableValid(g: seq<seq<string>>)
    ensures var t := Build(ImageEntries(g, |g|));
            && Distinct(t.order)
            && (forall k :: k in t.lists <==> k in t.order)
            && (forall k :: k in t.lists ==> |t.lists[k]| > 0)
  {
    BuildIndexes(ImageEntries(g, |g|));
    GridListsNonEmpty(g);
  }

  /** Scanning one more entry is one `Insert`. */
  lemma BuildSnoc(es: seq<Entry>, e: Entry)
    ensures Build(es + [e]) == Insert(Build(es), e)
  {
    assert (es + [e])[..|es|] == es;
  }

  /** The scan of pixel (r, c) follows the scan of the pixels before it;
      the scan of a whole row completes the scan of the rows up to it. */
  lemma RowEntriesSnoc(g: seq<seq<string>>, r: int, c: int)
    requires 0 <= r < |g| && 0 <= c < |g[r]|
    ensures ImageEntries(g, r) + RowEntries(g, r, c + 1) == ImageEntries(g, r) + RowEntries(g, r, c) + [Entry(g[r][c], (r, c))]
    ensures c + 1 == |g[r]| ==> ImageEntries(g, r + 1) == ImageEntries(g, r) + RowEntries(g, r, c + 1)
  {
    var a, b, e := ImageEntries(g, r), RowEntries(g, r, c), Entry(g[r][c], (r, c));
    assert RowEntries(g, r, c + 1) == b + [e];
    assert a + (b + [e]) == a + b + [e];
  }

  lemma ImageCoversPixels(src: array3<Byte>)
    ensures var t := Build(ImageEntries(KeyGrid(src), src.Length0));
            forall r, c :: 0 <= r < src.Length0 && 0 <= c < src.Length1 ==>
              PixelKey(src, r, c) in t.lists && (r, c) in t.lists[PixelKey(src, r, c)]
  {
    var g := KeyGrid(src);
    GridCovered(g);
    forall r, c | 0 <= r < src.Length0 && 0 <= c < src.Length1
      ensures g[r][c] == PixelKey(src, r, c)
    {
      KeyGridAt(src, r, c);
    }
  }

  // ---------------------------------------------------------------------
  // ColorPixelManager

  /** The colour argument of `getPixelPosList`: a tuple, a list, a key string,
      or anything else. */
  datatype ColorArg = TupleArg(values: seq<int>) | ListArg(values: seq<int>) | StrArg(key: string) | OtherArg

  /** Python's `min(seq, key=...)` position: the first index whose value is
      smallest (a later element replaces the best only when strictly less). */
  function FirstMinIndex(xs: seq<int>): (i: nat)
    requires |xs| > 0
    ensures i < |xs|
    ensures forall j :: 0 <= j < |xs| ==> xs[i] <= xs[j]
    ensures forall j :: 0 <= j < i ==> xs[j] > xs[i]
  {
    if |xs| == 1 then 0
    else
      var k := FirstMinIndex(xs[..|xs| - 1]);
      if xs[|xs| - 1] < xs[k] then |xs| - 1 else k
  }

  /** Python's `max(seq, key=...)` position: the first index whose value is
      largest. */
  function FirstMaxIndex(xs: seq<int>): (i: nat)
    requires |xs| > 0
    ensures i < |xs|
    ensures forall j :: 0 <= j < |xs| ==> xs[j] <= xs[i]
    ensures forall j :: 0 <= j < i ==> xs[j] < xs[i]
  {
    if |xs| == 1 then 0
    else
      var k := FirstMaxIndex(xs[..|xs| - 1]);
      if xs[|xs| - 1] > xs[k] then |xs| - 1 else k
  }

  class ColorPixelManager {
    var rows: nat
    var cols: nat
    /** The keys of `pixelDict` in insertion order (Python dicts keep it). */
    var keyOrder: seq<string>
    var pixelDict: map<string, seq<Pos>>

    ghost predicate Valid()
      reads this
    {
      && Distinct(keyOrder)
      && (forall k :: k in pixelDict <==> k in keyOrder)
      && (forall k :: k in pixelDict ==> |pixelDict[k]| > 0)
    }

    /** `ColorPixelManager(srcImg)`: scans the image row by row, column by
        column, appending each position to the list of its colour key. */
    constructor (srcImg: array3<Byte>)
      ensures rows == srcImg.Length0 && cols == srcImg.Length1
      ensures Table(keyOrder, pixelDict) == Build(ImageEntries(KeyGrid(srcImg), rows))
      ensures Valid()
    {
      rows, cols := srcImg.Length0, srcImg.Length1;
      keyOrder, pixelDict := [], map[];
      new;
      ghost var g := KeyGrid(srcImg);
      var itR := 0;
      while itR < rows
        invariant rows == srcImg.Length0 == |g| && cols == srcImg.Length1
        invariant 0 <= itR <= rows
        invariant Table(keyOrder, pixelDict) == Build(ImageEntries(g, itR))
      {
        KeyGridRow(srcImg, itR);
        ScanRow(srcImg, itR, g);
        itR := itR + 1;
      }
      GridTableValid(g);
    }

    /** The constructor's inner loop: scan row `itR` column by column. */
    method ScanRow(srcImg: array3<Byte>, itR: nat, ghost g: seq<seq<string>>)
      requires rows == srcImg.Length0 == |g| && cols == srcImg.Length1 && itR < rows
      requires forall r :: 0 <= r < |g| ==> |g[r]| == cols
      requires forall c :: 0 <= c < cols ==> g[itR][c] == PixelKey(srcImg, itR, c)
      requires Table(keyOrder, pixelDict) == Build(ImageEntries(g, itR))
      modifies this
      ensures rows == old(rows) && cols == old(cols)
      ensures Table(keyOrder, pixelDict) == Build(ImageEntries(g, itR + 1))
    {
      ghost var scanned := ImageEntries(g, itR);
      assert scanned + RowEntries(g, itR, 0) == scanned;
      var itC := 0;
      while itC < cols
        invariant rows == old(rows) == srcImg.Length0 == |g| && cols == old(cols) == srcImg.Length1
        invariant 0 <= itC <= cols
        invariant scanned == ImageEntries(g, itR) + RowEntries(g, itR, itC)
        invariant Table(keyOrder, pixelDict) == Build(scanned)
      {
        var colorValueStr := ColorKey(PixelValues(srcImg, itR, itC));
        var pos := (itR, itC);
        AddPosition(colorValueStr, pos);
        BuildSnoc(scanned, Entry(colorValueStr, pos));
        RowEntriesSnoc(g, itR, itC);
        scanned := scanned + [Entry(colorValueStr, pos)];
        itC := itC + 1;
      }
    }

    /** The body of the inner loop: a new key gets a fresh list, and the
        position is appended to the list of its key. */
    method AddPosition(key: string, pos: Pos)
      modifies this
      ensures rows == old(rows) && cols == old(cols)
      ensures Table(keyOrder, pixelDict) == Insert(old(Table(keyOrder, pixelDict)), Entry(key, pos))
      ensures old(Valid()) ==> Valid()
    {
      if key !in pixelDict {
        keyOrder := keyOrder + [key];
        pixelDict := pixelDict[key := [pos]];
      } else {
        pixelDict := pixelDict[key := pixelDict[key] + [pos]];
      }
    }

    /** `getPixelPosList(color)`: a tuple or list is turned into its key,
        a string is used as the key; an unknown key, or a colour of any other
        type, gives None. */
    function GetPixelPosList(color: ColorArg): (r: Option<seq<Pos>>)
      reads this
      ensures color.OtherArg? ==> r == None
      ensures color.StrArg? ==> (r.Some? <==> color.key in pixelDict)
      ensures color.StrArg? && r.Some? ==> r.value == pixelDict[color.key]
      ensures color.TupleArg? || color.ListArg? ==> (r.Some? <==> ColorKey(color.values) in pixelDict)
      ensures (color.TupleArg? || color.ListArg?) && r.Some? ==> r.value == pixelDict[ColorKey(color.values)]
    {
      var colorKey :=
        match color
        case TupleArg(values) => Some(ColorKey(values))
        case ListArg(values) => Some(ColorKey(values))
        case StrArg(key) => Some(key)
        case OtherArg => None;
      if colorKey.None? then None
      else if colorKey.value !in pixelDict then None
      else Some(pixelDict[colorKey.value])
    }

    /** `getPixelCount(color)` calls `self.getPixelPos`, a method the class
        does not define: every call raises AttributeError. */
    function GetPixelCount(color: ColorArg): (r: Result<nat>)
      ensures r == Err(AttributeError)
    {
      Err(AttributeError)
    }

    /** What `getPixelCount` evidently means: `len(self.getPixelPosList(...))`;
        a colour that is not in the index gives `len(None)`, a TypeError. */
    function GetPixelCountIntended(color: ColorArg): (r: Result<nat>)
      reads this
      requires Valid()
      ensures r.Ok? <==> GetPixelPosList(color).Some?
      ensures r.Err? ==> r.error == TypeError
      ensures r.Ok? ==> r.value == |GetPixelPosList(color).value| && r.value > 0
    {
      match GetPixelPosList(color)
      case None => Err(TypeError)
      case Some(list) => Ok(|list|)
    }

    /** `_callValue(dictKey)`: the number of positions under a key; a
        missing key raises KeyError. */
    function CallValue(dictKey: string): (r: Result<nat>)
      reads this
      ensures r.Ok? <==> dictKey in pixelDict
      ensures r.Err? ==> r.error == KeyError
      ensures r.Ok? ==> r.value == |pixelDict[dictKey]|
    {
      if dictKey in pixelDict then Ok(|pixelDict[dictKey]|) else Err(KeyError)
    }

    /** The list lengths in key insertion order. */
    function Counts(): (cs: seq<int>)
      reads this
      requires Valid()
      ensures |cs| == |keyOrder|
      ensures forall i :: 0 <= i < |keyOrder| ==> cs[i] == |pixelDict[keyOrder[i]]|
    {
      assert forall i :: 0 <= i < |keyOrder| ==> keyOrder[i] in pixelDict;
      seq(|keyOrder|, i requires 0 <= i < |keyOrder| && keyOrder[i] in pixelDict reads this => |pixelDict[keyOrder[i]]|)
    }

    /** `getMinMaxPixel()`: the keys with the fewest and the most positions,
        ties going to the key inserted first; an empty index makes `min`
        raise ValueError. */
    function GetMinMaxPixel(): (r: Result<(string, string)>)
      reads this
      requires Valid()
      ensures r.Err? <==> |keyOrder| == 0
      ensures r.Err? ==> r.error == ValueError
      ensures r.Ok? ==> r.value.0 in pixelDict && r.value.1 in pixelDict
      ensures r.Ok? ==> forall k :: k in pixelDict ==>
                |pixelDict[r.value.0]| <= |pixelDict[k]| <= |pixelDict[r.value.1]|
      ensures r.Ok? ==> forall i, j :: 0 <= i < j < |keyOrder| && keyOrder[j] == r.value.0 ==>
                |pixelDict[keyOrder[i]]| > |pixelDict[r.value.0]|
      ensures r.Ok? ==> forall i, j :: 0 <= i < j < |keyOrder| && keyOrder[j] == r.value.1 ==>
                |pixelDict[keyOrder[i]]| < |pixelDict[r.value.1]|
    {
      if |keyOrder| == 0 then Err(ValueError)
      else
        var cs := Counts();
        var lo := FirstMinIndex(cs);
        var hi := FirstMaxIndex(cs);
        assert forall k :: k in pixelDict ==> exists i :: 0 <= i < |keyOrder| && keyOrder[i] == k;
        Ok((keyOrder[lo], keyOrder[hi]))
    }
  }

  /** The manager a scan of `src` built: its dictionary is the fold of the
      pixels' keys in row-major order. */
  ghost predicate BuiltFrom(m: ColorPixelManager, src: array3<Byte>)
    reads m, src
  {
    && m.rows == src.Length0 && m.cols == src.Length1
    && Table(m.keyOrder, m.pixelDict) == Build(ImageEntries(KeyGrid(src), src.Length0))
  }

  /** Every pixel sits in the list of its own colour key. */
  lemma ManagerCoversImage(m: ColorPixelManager, src: array3<Byte>)
    requires BuiltFrom(m, src)
    ensures forall r, c :: 0 <= r < m.rows && 0 <= c < m.cols ==>
              PixelKey(src, r, c) in m.pixelDict && (r, c) in m.pixelDict[PixelKey(src, r, c)]
  {
    ImageCoversPixels(src);
  }

  /** A list holds only positions of the image whose colour is its key, so
      no pixel sits in a foreign list. */
  lemma ManagerOnlyOwnPixels(m: ColorPixelManager, src: array3<Byte>)
    requires BuiltFrom(m, src)
    ensures forall k, p :: k in m.pixelDict && p in m.pixelDict[k] ==>
              0 <= p.0 < m.rows && 0 <= p.1 < m.cols && k == PixelKey(src, p.0, p.1)
  {
    forall k: string, p: Pos | k in m.pixelDict && p in m.pixelDict[k]
      ensures 0 <= p.0 < m.rows && 0 <= p.1 < m.cols && k == PixelKey(src, p.0, p.1)
    {
      OwnPixel(m, src, k, p);
    }
  }

  lemma OwnPixel(m: ColorPixelManager, src: array3<Byte>, k: string, p: Pos)
    requires BuiltFrom(m, src)
    requires k in m.pixelDict && p in m.pixelDict[k]
    ensures 0 <= p.0 < m.rows && 0 <= p.1 < m.cols && k == PixelKey(src, p.0, p.1)
  {
    var g := KeyGrid(src);
    assert m.pixelDict == Build(ImageEntries(g, |g|)).lists;
    OwnPosition(g, k, p);
    KeyGridAt(src, p.0, p.1);
  }

  /** Each list is in row-major (scan) order. */
  lemma ManagerListsSorted(m: ColorPixelManager, src: array3<Byte>)
    requires BuiltFrom(m, src)
    ensures ListsSorted(m.pixelDict)
  {
    GridSorted(KeyGrid(src));
  }

  /** Keys stand in the order the scan first met them. */
  lemma ManagerKeyOrder(m: ColorPixelManager, src: array3<Byte>)
    requires BuiltFrom(m, src)
    ensures FirstOccurrenceOrder(Table(m.keyOrder, m.pixelDict), ImageEntries(KeyGrid(src), src.Length0))
  {
    BuildFirstOccurrence(ImageEntries(KeyGrid(src), src.Length0));
  }

  /** rows * cols positions are stored in all: one per pixel. */
  lemma ManagerTotal(m: ColorPixelManager, src: array3<Byte>)
    requires BuiltFrom(m, src)
    ensures TotalLength(m.keyOrder, m.pixelDict) == m.rows * m.cols
  {
    var g := KeyGrid(src);
    BuildTotal(ImageEntries(g, |g|));
    ImageLength(g, src.Length1, |g|);
  }

  /** Looking a colour up by its channel values finds a pixel exactly when
      the pixel has those values: the index neither loses nor merges
      colours. */
  lemma LookupByColor(m: ColorPixelManager, src: array3<Byte>, values: seq<int>, p: Pos)
    requires BuiltFrom(m, src)
    requires 0 <= p.0 < src.Length0 && 0 <= p.1 < src.Length1
    ensures (m.GetPixelPosList(TupleArg(values)).Some? && p in m.GetPixelPosList(TupleArg(values)).value)
            <==> PixelValues(src, p.0, p.1) == values
  {
    ManagerCoversImage(m, src);
    ManagerOnlyOwnPixels(m, src);
    ColorKeyInjective(PixelValues(src, p.0, p.1), values);
  }

  /** A tuple, a list with the same values, and the key string they join to
      all find the same list. */
  lemma LookupFormsAgree(m: ColorPixelManager, values: seq<int>)
    ensures m.GetPixelPosList(TupleArg(values)) == m.GetPixelPosList(ListArg(values))
    ensures m.GetPixelPosList(StrArg(ColorKey(values))) == m.GetPixelPosList(TupleArg(values))
  {
  }

  // ---------------------------------------------------------------------
  // showImageFiles: the subplot grid

  /** The grid `showImageFiles` lays `count` images out on: starting from
      1 x 1 it widens (c += 1) when square and otherwise adds a row, until
      r * c holds all images. The result holds them all, is square or one
      column wider, and the grid before the last step was too small. */
  method SubplotGrid(count: int) returns (r: int, c: int)
    ensures r >= 1 && r * c >= count
    ensures c == r || c == r + 1
    ensures (r == 1 && c == 1) || (c == r + 1 && r * r < count) || (c == r && r * (r - 1) < count)
  {
    r, c := 1, 1;
    while r * c < count
      invariant r >= 1 && (c == r || c == r + 1)
      invariant (r == 1 && c == 1) || (c == r + 1 && r * r < count) || (c == r && r * (r - 1) < count)
      decreases count - r * c
    {
      if r == c {
        c := c + 1;
      } else {
        r := r + 1;
      }
    }
  }
}
