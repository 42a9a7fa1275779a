/** dataTool/histViewer.py: `checkEpochCount`, which annotates a training
    history (a JSON object loaded into a dict) with the common length of its
    list-valued entries under the key "epCount", in place. */
module HistViewer {
  import opened Python

  /** A JSON value as `json.load` produces it; only lists matter here. */
  datatype JsonValue =
    | JsonList(items: seq<JsonValue>)
    | JsonNumber(n: int)
    | JsonText(s: string)
    | JsonOther

  /** A dict's contents: its keys in insertion order and the value of each. */
  datatype Dict = Dict(order: seq<string>, entries: map<string, JsonValue>)

  /** The keys listed in `order` are exactly the keys present, each once. */
  ghost predicate WellFormed(d: Dict) {
    && (forall k :: k in d.entries <==> k in d.order)
    && (forall i, j :: 0 <= i < j < |d.order| ==> d.order[i] != d.order[j])
  }

  /** `d[k] = v`: a new key goes to the end of the insertion order, an
      existing key keeps its place. */
  function SetItem(d: Dict, k: string, v: JsonValue): (d': Dict)
    requires WellFormed(d)
    ensures WellFormed(d')
    ensures k in d'.entries && d'.entries[k] == v
    ensures forall k' :: k' != k ==> (k' in d'.entries <==> k' in d.entries)
    ensures forall k' :: k' != k && k' in d.entries ==> d'.entries[k'] == d.entries[k']
    ensures d'.order == if k in d.entries then d.order else d.order + [k]
  {
    if k in d.entries then Dict(d.order, d.entries[k := v])
    else Dict(d.order + [k], d.entries[k := v])
  }

  const EpCountKey := "epCount"

  /** `dataLenList`: the lengths of the list-valued entries, in key order. */
  function ListLengths(order: seq<string>, entries: map<string, JsonValue>): (lens: seq<nat>)
    requires forall k :: k in order ==> k in entries
    ensures |lens| <= |order|
  {
    if order == [] then []
    else
      var k := order[|order| - 1];
      ListLengths(order[..|order| - 1], entries)
        + (if entries[k].JsonList? then [|entries[k].items|] else [])
  }

  /** With no list-valued entry nothing is collected. */
  lemma {:induction false} NoListsNoLengths(order: seq<string>, entries: map<string, JsonValue>)
    requires forall k :: k in order ==> k in entries && !entries[k].JsonList?
    ensures ListLengths(order, entries) == []
  {
    if order != [] {
      NoListsNoLengths(order[..|order| - 1], entries);
    }
  }

  /** A length is collected exactly when some list-valued entry has it. */
  lemma {:induction false} ListLengthsOfLists(order: seq<string>, entries: map<string, JsonValue>)
    requires forall k :: k in order ==> k in entries
    ensures forall n :: n in ListLengths(order, entries) <==>
              exists k :: k in order && entries[k].JsonList? && |entries[k].items| == n
  {
    if order != [] {
      var front := order[..|order| - 1];
      ListLengthsOfLists(front, entries);
      forall n
        ensures n in ListLengths(order, entries) <==>
                exists k :: k in order && entries[k].JsonList? && |entries[k].items| == n
      {
        if exists k :: k in order && entries[k].JsonList? && |entries[k].items| == n {
          var k :| k in order && entries[k].JsonList? && |entries[k].items| == n;
          if k != order[|order| - 1] {
            assert k in front;
          }
        }
        if n in ListLengths(front, entries) {
          var k :| k in front && entries[k].JsonList? && |entries[k].items| == n;
          assert k in order;
        }
      }
    }
  }

  /** Writing a value that is not a list at a key that holds no list leaves
      the collected lengths as they were. */
  lemma {:induction false} ListLengthsIgnoresNonList(order: seq<string>, entries: map<string, JsonValue>, k: string, v: JsonValue)
    requires forall k' :: k' in order ==> k' in entries
    requires !v.JsonList?
    requires k in entries ==> !entries[k].JsonList?
    ensures ListLengths(order, entries[k := v]) == ListLengths(order, entries)
    ensures ListLengths(order + [k], entries[k := v]) == ListLengths(order, entries)
  {
    if order != [] {
      ListLengthsIgnoresNonList(order[..|order| - 1], entries, k, v);
    }
    assert (order + [k])[..|order|] == order;
  }

  /** `lst.count(x)`. */
  function Count(s: seq<nat>, x: nat): nat {
    if s == [] then 0 else Count(s[..|s| - 1], x) + (if s[|s| - 1] == x then 1 else 0)
  }

  /** `s.count(x)` is at most `len(s)`, and equal to it exactly when every
      element is `x`. */
  lemma {:induction false} CountAll(s: seq<nat>, x: nat)
    ensures Count(s, x) <= |s|
    ensures Count(s, x) == |s| <==> forall i :: 0 <= i < |s| ==> s[i] == x
  {
    if s != [] {
      var front := s[..|s| - 1];
      CountAll(front, x);
      if Count(s, x) == |s| {
        assert Count(front, x) == |front| && s[|s| - 1] == x;
        forall i | 0 <= i < |s| ensures s[i] == x {
          if i < |front| { assert s[i] == front[i]; }
        }
      }
      if forall i :: 0 <= i < |s| ==> s[i] == x {
        forall i | 0 <= i < |front| ensures front[i] == x {
          assert front[i] == s[i];
        }
      }
    }
  }

  /** What `checkEpochCount` does to a dict: when "epCount" is missing or
      `refresh` is set, collect the list lengths, read the first (IndexError
      when there is none), and write it under "epCount" when every length
      equals it. */
  function Annotate(d: Dict, refresh: bool): (r: Result<Dict>)
    requires WellFormed(d)
    ensures r.Err? <==> (EpCountKey !in d.entries || refresh) && ListLengths(d.order, d.entries) == []
    ensures r.Err? ==> r.error == IndexError
    ensures r.Ok? ==> WellFormed(r.value)
    ensures r.Ok? && r.value != d ==> EpCountKey in r.value.entries && r.value.entries[EpCountKey].JsonNumber?
  {
    if EpCountKey !in d.entries || refresh then
      var lens := ListLengths(d.order, d.entries);
      if |lens| == 0 then Err(IndexError)
      else if |lens| == Count(lens, lens[0]) then Ok(SetItem(d, EpCountKey, JsonNumber(lens[0])))
      else Ok(d)
    else Ok(d)
  }

  /** The update only ever writes "epCount": every other key keeps its
      value, the insertion order keeps its keys, and the dict stays well
      formed. */
  lemma AnnotateOnlyWritesEpCount(d: Dict, refresh: bool)
    requires WellFormed(d)
    ensures Annotate(d, refresh).Ok? ==>
              var d' := Annotate(d, refresh).value;
              && WellFormed(d')
              && (forall k :: k != EpCountKey ==> (k in d'.entries <==> k in d.entries))
              && (forall k :: k != EpCountKey && k in d.entries ==> d'.entries[k] == d.entries[k])
              && (d'.order == d.order || d'.order == d.order + [EpCountKey])
  {
  }

  /** A dict lacking "epCount", or any dict with `refresh`, whose list-valued
      entries all have length `n` gets "epCount" set to `n`. */
  lemma AnnotateWritesCommonLength(d: Dict, refresh: bool, n: nat)
    requires WellFormed(d)
    requires EpCountKey !in d.entries || refresh
    requires |ListLengths(d.order, d.entries)| > 0
    requires forall k :: k in d.entries && d.entries[k].JsonList? ==> |d.entries[k].items| == n
    ensures Annotate(d, refresh).Ok?
    ensures EpCountKey in Annotate(d, refresh).value.entries
    ensures Annotate(d, refresh).value.entries[EpCountKey] == JsonNumber(n)
  {
    var lens := ListLengths(d.order, d.entries);
    ListLengthsOfLists(d.order, d.entries);
    assert lens[0] in lens;
    assert lens[0] == n;
    forall i | 0 <= i < |lens| ensures lens[i] == n {
      assert lens[i] in lens;
    }
    CountAll(lens, n);
  }

  /** When two list-valued entries differ in length, the dict is left as it
      was. */
  lemma AnnotateDisagreementUnchanged(d: Dict, refresh: bool, k1: string, k2: string)
    requires WellFormed(d)
    requires k1 in d.entries && k2 in d.entries
    requires d.entries[k1].JsonList? && d.entries[k2].JsonList?
    requires |d.entries[k1].items| != |d.entries[k2].items|
    ensures Annotate(d, refresh) == Ok(d)
  {
    if EpCountKey !in d.entries || refresh {
      var lens := ListLengths(d.order, d.entries);
      ListLengthsOfLists(d.order, d.entries);
      assert |d.entries[k1].items| in lens && |d.entries[k2].items| in lens;
      var i1 :| 0 <= i1 < |lens| && lens[i1] == |d.entries[k1].items|;
      var i2 :| 0 <= i2 < |lens| && lens[i2] == |d.entries[k2].items|;
      assert lens[i1] != lens[0] || lens[i2] != lens[0];
      CountAll(lens, lens[0]);
    }
  }

  /** An existing "epCount" without `refresh` leaves the dict unchanged. */
  lemma AnnotatePresentUnchanged(d: Dict)
    requires WellFormed(d)
    requires EpCountKey in d.entries
    ensures Annotate(d, false) == Ok(d)
  {
  }

  /** A dict with no list-valued entry fails at `dataLenList[0]`, before the
      `len(dataLenList) > 0` guard is reached. */
  lemma AnnotateNoListsFails(d: Dict, refresh: bool)
    requires WellFormed(d)
    requires EpCountKey !in d.entries || refresh
    requires forall k :: k in d.entries ==> !d.entries[k].JsonList?
    ensures Annotate(d, refresh) == Err(IndexError)
  {
    NoListsNoLengths(d.order, d.entries);
  }

  /** Setting "epCount" to a number, where it held no list, keeps the
      collected lengths. */
  lemma WrittenLengths(d: Dict, v: JsonValue)
    requires WellFormed(d)
    requires !v.JsonList?
    requires EpCountKey in d.entries ==> !d.entries[EpCountKey].JsonList?
    ensures var d' := SetItem(d, EpCountKey, v);
            ListLengths(d'.order, d'.entries) == ListLengths(d.order, d.entries)
  {
    ListLengthsIgnoresNonList(d.order, d.entries, EpCountKey, v);
  }

  /** The value a successful scan writes, when it writes one. */
  predicate WritesEpCount(d: Dict, refresh: bool)
    requires WellFormed(d)
  {
    var lens := ListLengths(d.order, d.entries);
    (EpCountKey !in d.entries || refresh) && |lens| > 0 && |lens| == Count(lens, lens[0])
  }

  /** A refreshing run over a dict whose "epCount" already holds the common
      length writes that same value, which leaves the dict as it is. */
  lemma RefreshKeepsSameValue(e: Dict)
    requires WellFormed(e)
    requires WritesEpCount(e, true)
    requires EpCountKey in e.entries
    requires e.entries[EpCountKey] == JsonNumber(ListLengths(e.order, e.entries)[0])
    ensures Annotate(e, true) == Ok(e)
  {
    var v := e.entries[EpCountKey];
    assert e.entries[EpCountKey := v] == e.entries;
    assert SetItem(e, EpCountKey, v) == e;
  }

  /** A refreshing run that wrote the common length writes the same value
      again, which leaves the dict as it is. */
  lemma RefreshRewritesSame(d: Dict)
    requires WellFormed(d)
    requires EpCountKey in d.entries ==> !d.entries[EpCountKey].JsonList?
    requires WritesEpCount(d, true)
    ensures Annotate(Annotate(d, true).value, true) == Annotate(d, true)
  {
    var lens := ListLengths(d.order, d.entries);
    var d' := SetItem(d, EpCountKey, JsonNumber(lens[0]));
    assert Annotate(d, true) == Ok(d');
    WrittenLengths(d, JsonNumber(lens[0]));
    RefreshKeepsSameValue(d');
  }

  /** A run without `refresh` that wrote "epCount" finds it on the next run. */
  lemma WrittenEpCountStays(d: Dict)
    requires WellFormed(d)
    requires WritesEpCount(d, false)
    ensures Annotate(Annotate(d, false).value, false) == Annotate(d, false)
  {
    var lens := ListLengths(d.order, d.entries);
    var d' := SetItem(d, EpCountKey, JsonNumber(lens[0]));
    assert Annotate(d, false) == Ok(d');
    assert EpCountKey in d'.entries;
  }

  /** Running the annotation again with the same `refresh` changes nothing,
      provided "epCount" did not hold a list (a list there is overwritten
      and drops out of the lengths). */
  lemma AnnotateIdempotent(d: Dict, refresh: bool)
    requires WellFormed(d)
    requires EpCountKey in d.entries ==> !d.entries[EpCountKey].JsonList?
    requires Annotate(d, refresh).Ok?
    ensures Annotate(Annotate(d, refresh).value, refresh) == Annotate(d, refresh)
  {
    if WritesEpCount(d, refresh) {
      if refresh {
        RefreshRewritesSame(d);
      } else {
        WrittenEpCountStays(d);
      }
    } else {
      assert Annotate(d, refresh) == Ok(d);
    }
  }

  /** `checkEpochCount` with the emptiness guard read before the first
      length: a dict without lists is returned unchanged. */
  function AnnotateIntended(d: Dict, refresh: bool): (r: Dict)
    requires WellFormed(d)
    ensures WellFormed(r)
    ensures forall k :: k != EpCountKey ==> (k in r.entries <==> k in d.entries)
    ensures forall k :: k != EpCountKey && k in d.entries ==> r.entries[k] == d.entries[k]
    ensures EpCountKey in d.entries && !refresh ==> r == d
  {
    if EpCountKey !in d.entries || refresh then
      var lens := ListLengths(d.order, d.entries);
      if |lens| > 0 && |lens| == Count(lens, lens[0]) then SetItem(d, EpCountKey, JsonNumber(lens[0]))
      else d
    else d
  }

  /** The guarded update never fails, agrees with the source wherever the
      source succeeds, and leaves a dict without lists unchanged. */
  lemma AnnotateIntendedTotal(d: Dict, refresh: bool)
    requires WellFormed(d)
    ensures Annotate(d, refresh).Ok? ==> AnnotateIntended(d, refresh) == Annotate(d, refresh).value
    ensures Annotate(d, refresh).Err? ==> AnnotateIntended(d, refresh) == d
    ensures (forall k :: k in d.entries ==> !d.entries[k].JsonList?) ==> AnnotateIntended(d, refresh) == d
  {
    if forall k :: k in d.entries ==> !d.entries[k].JsonList? {
      NoListsNoLengths(d.order, d.entries);
    }
  }

  /** The caller's dict, updated in place. */
  class HistDict {
    var order: seq<string>
    var entries: map<string, JsonValue>

    function Contents(): Dict
      reads this
    {
      Dict(order, entries)
    }

    ghost predicate Valid()
      reads this
    {
      WellFormed(Contents())
    }

    constructor (d: Dict)
      requires WellFormed(d)
      ensures Valid() && Contents() == d
    {
      order := d.order;
      entries := d.entries;
    }

    /** `self[k] = v`. */
    method SetItemInPlace(k: string, v: JsonValue)
      requires Valid()
      modifies this
      ensures Valid()
      ensures Contents() == SetItem(old(Contents()), k, v)
    {
      if k !in entries {
        order := order + [k];
      }
      entries := entries[k := v];
    }

    /** The loop building `dataLenList`. */
    method CollectListLengths() returns (lens: seq<nat>)
      requires Valid()
      ensures lens == ListLengths(order, entries)
    {
      lens := [];
      var i := 0;
      while i < |order|
        invariant 0 <= i <= |order|
        invariant lens == ListLengths(order[..i], entries)
      {
        assert order[..i + 1][..i] == order[..i];
        var selected := entries[order[i]];
        if selected.JsonList? {
          lens := lens + [|selected.items|];
        }
        i := i + 1;
      }
      assert order[..i] == order;
    }
  }

  /** The argument of `checkEpochCount`: a path string, a loaded dict, or
      anything else. */
  datatype HistArg = PathArg(path: string) | DictArg(dict: HistDict) | OtherArg

  /** `checkEpochCount(histJson, refresh)`. Anything but a str or a dict
      returns None; a path leaves the result None, whose `.keys()` raises
      AttributeError; a dict is updated in place as `Annotate` says and is
      itself returned, and is left untouched when the update fails. */
  method CheckEpochCount(histJson: HistArg, refresh: bool) returns (r: Result<Option<HistDict>>)
    requires histJson.DictArg? ==> histJson.dict.Valid()
    modifies if histJson.DictArg? then {histJson.dict} else {}
    ensures histJson.OtherArg? ==> r == Ok(None)
    ensures histJson.PathArg? ==> r == Err(AttributeError)
    ensures histJson.DictArg? ==>
              var d := histJson.dict;
              && d.Valid()
              && match Annotate(old(d.Contents()), refresh)
                 case Ok(d') => r == Ok(Some(d)) && d.Contents() == d'
                 case Err(e) => r == Err(e) && d.Contents() == old(d.Contents())
  {
    match histJson {
      case OtherArg => return Ok(None);
      case PathArg(_) => return Err(AttributeError);
      case DictArg(d) =>
        if EpCountKey !in d.entries || refresh {
          var lens := d.CollectListLengths();
          if |lens| == 0 {
            return Err(IndexError);
          }
          var epCount := lens[0];
          if |lens| > 0 && |lens| == Count(lens, epCount) {
            d.SetItemInPlace(EpCountKey, JsonNumber(epCount));
          }
        }
        return Ok(Some(d));
    }
  }
}
