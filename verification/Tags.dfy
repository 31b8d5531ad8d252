/** Reading tags back out of flattened properties. */
module Tags {
  import opened Templates
  import opened Ordering
  import opened Pointers
  import opened Resources
  import opened Diff
  import opened Flatten
  import opened FlattenLaws

  /** A resolved text at `/Tags/<index>/<side>`. */
  predicate IsTagLeaf(item: Item) {
    var parts := SplitSlash(item.path);
    |parts| == 4 && parts[1] == "Tags" && item.value.Resolved? && item.value.value.Str?
  }

  function IndexPart(item: Item): string
    requires IsTagLeaf(item)
  {
    SplitSlash(item.path)[2]
  }

  function SidePart(item: Item): string
    requires IsTagLeaf(item)
  {
    SplitSlash(item.path)[3]
  }

  /** The leaf that gives one side of a tag its text. */
  predicate Says(item: Item, index: string, side: string, text: string) {
    IsTagLeaf(item) && IndexPart(item) == index && SidePart(item) == side && item.value.value.s == text
  }

  /** The texts on one side of the tags, by index; a later one replaces an earlier one. */
  function Gathered(items: seq<Item>, side: string): map<string, string> {
    if items == [] then map[]
    else
      var n := |items| - 1;
      var earlier := Gathered(items[..n], side);
      if IsTagLeaf(items[n]) && SidePart(items[n]) == side then earlier[IndexPart(items[n]) := items[n].value.value.s]
      else earlier
  }

  function PairUp(indices: seq<string>, keys: map<string, string>, values: map<string, string>): map<string, string> {
    if indices == [] then map[]
    else
      var n := |indices| - 1;
      var earlier := PairUp(indices[..n], keys, values);
      if indices[n] in keys && indices[n] in values then earlier[keys[indices[n]] := values[indices[n]]] else earlier
  }

  ghost function TagsOf(items: seq<Item>): map<string, string> {
    var keys := Gathered(items, "Key");
    PairUp(Arranged(keys.Keys), keys, Gathered(items, "Value"))
  }

  method ExtractTags(items: seq<Item>) returns (tags: map<string, string>)
    ensures tags == TagsOf(items)
  {
    hide Arranged, SplitSlash;
    var keys: map<string, string>, values: map<string, string> := map[], map[];
    for i := 0 to |items|
      invariant keys == Gathered(items[..i], "Key") && values == Gathered(items[..i], "Value")
    {
      assert items[..i + 1][..i] == items[..i];
      if IsTagLeaf(items[i]) {
        if SidePart(items[i]) == "Key" {
          keys := keys[IndexPart(items[i]) := items[i].value.value.s];
        } else if SidePart(items[i]) == "Value" {
          values := values[IndexPart(items[i]) := items[i].value.value.s];
        }
      }
    }
    assert items[..|items|] == items;
    var indices := SortedPaths(keys.Keys);
    tags := map[];
    for i := 0 to |indices|
      invariant tags == PairUp(indices[..i], keys, values)
    {
      assert indices[..i + 1][..i] == indices[..i];
      if indices[i] in keys && indices[i] in values {
        tags := tags[keys[indices[i]] := values[indices[i]]];
      }
    }
    assert indices[..|indices|] == indices;
  }

  // ----- what the gathered sides hold -----

  ghost predicate AllPointers(items: seq<Item>) {
    forall item :: item in items ==> exists tokens :: tokens != [] && item.path == PropertyPath(tokens)
  }

  /** On pointers, an index and a side identify the leaf. */
  lemma TagLeafIsIdentified(x: Item, y: Item)
    requires IsTagLeaf(x) && IsTagLeaf(y) && IndexPart(x) == IndexPart(y) && SidePart(x) == SidePart(y)
    requires AllPointers([x, y])
    ensures x.path == y.path
  {
    hide SplitSlash, PropertyPath;
    assert x in [x, y] && y in [x, y];
    var ts :| x.path == PropertyPath(ts);
    var us :| y.path == PropertyPath(us);
    PathSplits(ts);
    PathSplits(us);
    var es, fs := [""] + EscapeAll(ts), [""] + EscapeAll(us);
    assert es == fs;
    assert EscapeAll(ts) == es[1..] == fs[1..] == EscapeAll(us);
    assert |ts| == |EscapeAll(ts)| == |us|;
    forall i | 0 <= i < |ts| ensures ts[i] == us[i] {
      assert EscapeAll(ts)[i] == EscapeAll(us)[i];
      EscapeIsInjective(ts[i], us[i]);
    }
    assert ts == us;
  }

  lemma {:induction false} GatheredMeans(items: seq<Item>, side: string, index: string, text: string)
    requires DistinctPaths(items) && AllPointers(items)
    ensures (index in Gathered(items, side) && Gathered(items, side)[index] == text)
            <==> exists item :: item in items && Says(item, index, side, text)
    decreases |items|
  {
    hide SplitSlash, PropertyPath;
    if items != [] {
      var n := |items| - 1;
      var earlier, last := items[..n], items[n];
      assert items == earlier + [last];
      GatheredMeans(earlier, side, index, text);
      if IsTagLeaf(last) && SidePart(last) == side && IndexPart(last) == index {
        forall i | 0 <= i < n
          ensures !Says(items[i], index, side, text)
        {
          assert items[i] in items && last in items;
          if IsTagLeaf(items[i]) { OneLeafSays(items, i, n); }
        }
        assert Says(last, index, side, last.value.value.s);
      } else {
        assert !Says(last, index, side, text);
      }
    }
  }

  lemma OneLeafSays(items: seq<Item>, i: nat, n: nat)
    requires DistinctPaths(items) && AllPointers(items) && i < n < |items|
    requires IsTagLeaf(items[i]) && IsTagLeaf(items[n])
    ensures IndexPart(items[i]) != IndexPart(items[n]) || SidePart(items[i]) != SidePart(items[n])
  {
    hide IsTagLeaf, IndexPart, SidePart, PropertyPath;
    assert items[i] in items && items[n] in items;
    assert AllPointers([items[i], items[n]]);
    if IndexPart(items[i]) == IndexPart(items[n]) && SidePart(items[i]) == SidePart(items[n]) {
      TagLeafIsIdentified(items[i], items[n]);
    }
  }

  /** The last index carrying a key decides its value. */
  lemma {:induction false} PairUpMeans(indices: seq<string>, keys: map<string, string>, values: map<string, string>, key: string, value: string)
    requires forall i :: i in indices ==> i in keys && i in values
    ensures (key in PairUp(indices, keys, values) && PairUp(indices, keys, values)[key] == value)
            <==> exists p :: 0 <= p < |indices| && Decides(p, indices, keys, key) && values[indices[p]] == value
    decreases |indices|
  {
    if indices != [] {
      var n := |indices| - 1;
      var earlier := indices[..n];
      PairUpMeans(earlier, keys, values, key, value);
      if keys[indices[n]] == key {
        assert Decides(n, indices, keys, key);
      } else {
        forall p | 0 <= p < n
          ensures Decides(p, indices, keys, key) <==> Decides(p, earlier, keys, key)
        {
          assert forall q :: 0 <= q < n ==> earlier[q] == indices[q];
        }
      }
    }
  }

  ghost predicate Decides(p: nat, indices: seq<string>, keys: map<string, string>, key: string)
    requires p < |indices| && forall i :: i in indices ==> i in keys
  {
    keys[indices[p]] == key && forall q :: p < q < |indices| ==> keys[indices[q]] != key
  }

  // ----- a literal list of tags -----

  /** A mapping with a literal key and a literal value, and perhaps more. */
  predicate IsTag(n: Node, key: string, value: string) {
    n.Dict? && Lookup(n.entries, "Key") == Some(Leaf(Str(key))) && Lookup(n.entries, "Value") == Some(Leaf(Str(value)))
  }

  /** Properties whose tags are the given literal pairs, everything else being free. */
  ghost predicate Tagged(properties: Node, tags: seq<(string, string)>) {
    && properties.Dict? && !IsCall(properties)
    && var list := Lookup(properties.entries, "Tags");
    && list.Some? && list.value.List? && |list.value.items| == |tags|
    && forall i :: 0 <= i < |tags| ==> IsTag(list.value.items[i], tags[i].0, tags[i].1)
  }

  lemma TagIsNoCall(n: Node, key: string, value: string)
    requires IsTag(n, key, value)
    ensures !IsCall(n)
  {
    hide Lookup;
    var i :| 0 <= i < |n.entries| && n.entries[i].key == "Key";
    var j :| 0 <= j < |n.entries| && n.entries[j].key == "Value";
    assert n.entries[i].key != n.entries[j].key;
  }

  function SideText(tag: (string, string), side: string): string {
    if side == "Key" then tag.0 else tag.1
  }

  /** Walking to a tag's side finds its text. */
  lemma TagValueAt(properties: Node, ctx: Context, tags: seq<(string, string)>, token: string, side: string)
    requires Tagged(properties, tags) && side in {"Key", "Value"}
    ensures ValueAt(properties, ctx, ["Tags", token, side], 0)
            == if exists i :: 0 <= i < |tags| && NatText(i) == token then
                 (var i :| 0 <= i < |tags| && NatText(i) == token; Some(Resolved(Str(SideText(tags[i], side)), FromTemplate)))
               else None
  {
    hide NatText, Lookup, PropertyPath;
    var list := Lookup(properties.entries, "Tags").value;
    var path := ["Tags", token, side];
    assert path[1..] == [token, side] && [token, side][1..] == [side] && [side][1..] == [];
    assert ValueAt(properties, ctx, path, 0) == ValueAt(list, ctx, [token, side], 1);
    if exists i :: 0 <= i < |tags| && NatText(i) == token {
      var i :| 0 <= i < |tags| && NatText(i) == token;
      forall j: nat | NatText(j) == token ensures j == i { NatTextIsInjective(i, j); }
      var tag, text := list.items[i], Str(SideText(tags[i], side));
      TagIsNoCall(tag, tags[i].0, tags[i].1);
      assert ChildAt(list, token) == Some(tag);
      assert ValueAt(list, ctx, [token, side], 1) == ValueAt(tag, ctx, [side], 2);
      assert ValueAt(tag, ctx, [side], 2) == ValueAt(Leaf(text), ctx, [], 3);
    } else {
      assert ChildAt(list, token) == None;
    }
  }

  lemma {:induction false} EscapePlain(token: string)
    requires '~' !in token && '/' !in token
    ensures EscapeToken(token) == token
  {
    hide ReplaceChar;
    if token == "" {
      EscapeEmpty();
    } else {
      EscapeStep(token);
      EscapePlain(token[1..]);
      assert token == [token[0]] + token[1..];
    }
  }

  lemma EscapeEmpty()
    ensures EscapeToken("") == ""
  {
  }

  lemma {:induction false} NatTextIsPlain(n: nat)
    ensures '~' !in NatText(n) && '/' !in NatText(n)
  {
    if n >= 10 { NatTextIsPlain(n / 10); }
    assert forall d :: 0 <= d < 10 ==> "0123456789"[d] != '~' && "0123456789"[d] != '/';
  }

  /** The one leaf of the flattened properties that can carry a tag's side. */
  lemma TagLeafPath(item: Item, tokens: seq<string>, side: string)
    requires item.path == PropertyPath(tokens) && IsTagLeaf(item) && SidePart(item) == side && side in {"Key", "Value"}
    ensures |tokens| == 3 && tokens == ["Tags", tokens[1], side] && IndexPart(item) == EscapeToken(tokens[1])
  {
    hide SplitSlash, PropertyPath, EscapeToken;
    PathSplits(tokens);
    var es := [""] + EscapeAll(tokens);
    assert |es| == |tokens| + 1;
    assert es[1] == EscapeAll(tokens)[0] && es[2] == EscapeAll(tokens)[1] && es[3] == EscapeAll(tokens)[2];
    EscapePlain("Tags");
    EscapePlain(side);
    EscapeIsInjective(tokens[0], "Tags");
    EscapeIsInjective(tokens[2], side);
  }

  lemma TagPathLeaf(item: Item, token: string, side: string)
    requires item.path == PropertyPath(["Tags", token, side]) && side in {"Key", "Value"}
    requires item.value.Resolved? && item.value.value.Str?
    ensures IsTagLeaf(item) && SidePart(item) == side && IndexPart(item) == EscapeToken(token)
  {
    hide SplitSlash, PropertyPath, EscapeToken;
    var tokens := ["Tags", token, side];
    PathSplits(tokens);
    var es := [""] + EscapeAll(tokens);
    assert es[1] == EscapeAll(tokens)[0] && es[2] == EscapeAll(tokens)[1] && es[3] == EscapeAll(tokens)[2];
    EscapePlain("Tags");
    EscapePlain(side);
  }

  /** Flattened properties on which lookups are exact. */
  ghost predicate Walked(properties: Node, ctx: Context) {
    Keyed(properties) && Keyed(ctx.mappings) && |Leaves(properties, ctx, [], 0)| <= MAX_PROPERTIES
  }

  lemma SidesAreGathered(properties: Node, ctx: Context, tags: seq<(string, string)>, side: string, index: string, text: string)
    requires Walked(properties, ctx) && Tagged(properties, tags) && side in {"Key", "Value"}
    ensures var g := Gathered(Flattened(properties, ctx, [], [], 0), side);
            (index in g && g[index] == text) <==> exists i :: 0 <= i < |tags| && NatText(i) == index && SideText(tags[i], side) == text
  {
    hide Flattened, Gathered, Says, PropertyPath, EscapeToken, NatText, Tagged, ValueAt, Leaves, Keyed, DistinctPaths;
    var out := Flattened(properties, ctx, [], [], 0);
    FlattenWritesEachLeafOnce(properties, ctx);
    forall item | item in out ensures exists tokens :: tokens != [] && item.path == PropertyPath(tokens) {
      EveryPathIsAPointer(properties, ctx, item);
    }
    GatheredMeans(out, side, index, text);
    if item :| item in out && Says(item, index, side, text) {
      TagLeafIsATag(properties, ctx, tags, item, index, side, text);
    }
    if i :| 0 <= i < |tags| && NatText(i) == index && SideText(tags[i], side) == text {
      TagIsALeaf(properties, ctx, tags, i, side);
    }
  }

  lemma TagLeafIsATag(properties: Node, ctx: Context, tags: seq<(string, string)>, item: Item, index: string, side: string, text: string)
    requires Walked(properties, ctx) && Tagged(properties, tags) && side in {"Key", "Value"}
    requires item in Flattened(properties, ctx, [], [], 0)
    requires Says(item, index, side, text)
    ensures exists i :: 0 <= i < |tags| && NatText(i) == index && SideText(tags[i], side) == text
  {
    hide Flattened, SplitSlash, PropertyPath, EscapeToken, NatText, Tagged, ValueAt, Leaves, Keyed;
    EveryPathIsAPointer(properties, ctx, item);
    var tokens :| tokens != [] && item.path == PropertyPath(tokens);
    TagLeafPath(item, tokens, side);
    FlattenIsLookup(properties, ctx, tokens, item.value);
    TagValueAt(properties, ctx, tags, tokens[1], side);
    var i :| 0 <= i < |tags| && NatText(i) == tokens[1] && SideText(tags[i], side) == text;
    NatTextIsPlain(i);
    EscapePlain(tokens[1]);
  }

  lemma TagIsALeaf(properties: Node, ctx: Context, tags: seq<(string, string)>, i: nat, side: string)
    requires Walked(properties, ctx) && Tagged(properties, tags) && side in {"Key", "Value"} && i < |tags|
    ensures exists item :: item in Flattened(properties, ctx, [], [], 0) && Says(item, NatText(i), side, SideText(tags[i], side))
  {
    hide Flattened, SplitSlash, PropertyPath, EscapeToken, NatText, Tagged, ValueAt, Leaves, Keyed;
    var tokens, value := ["Tags", NatText(i), side], Resolved(Str(SideText(tags[i], side)), FromTemplate);
    TagValueAt(properties, ctx, tags, NatText(i), side);
    forall j: nat | NatText(j) == NatText(i) ensures j == i { NatTextIsInjective(i, j); }
    FlattenIsLookup(properties, ctx, tokens, value);
    NatTextIsPlain(i);
    EscapePlain(NatText(i));
    TagPathLeaf(Item(PropertyPath(tokens), value), NatText(i), side);
    assert Says(Item(PropertyPath(tokens), value), NatText(i), side, SideText(tags[i], side));
  }

  /** The tags read back are those of the template.  Where a key is repeated the tag whose index
      comes last as text wins. */
  lemma TagsAreRecovered(properties: Node, ctx: Context, tags: seq<(string, string)>, key: string, value: string)
    requires Walked(properties, ctx) && Tagged(properties, tags)
    ensures var read := TagsOf(Flattened(properties, ctx, [], [], 0));
            (key in read && read[key] == value)
            <==> exists i :: 0 <= i < |tags| && tags[i] == (key, value) && LastAsText(tags, i)
  {
    hide Flattened, Gathered, NatText, Tagged, Walked, PairUp, Arranged, TextAtMost, Decides, LastAsText;
    var out := Flattened(properties, ctx, [], [], 0);
    var keys, values := Gathered(out, "Key"), Gathered(out, "Value");
    var indices := Arranged(keys.Keys);
    ArrangedMembers(keys.Keys);
    forall i | i in indices ensures i in keys && i in values {
      SidesAreGathered(properties, ctx, tags, "Key", i, keys[i]);
      var t :| 0 <= t < |tags| && NatText(t) == i;
      SidesAreGathered(properties, ctx, tags, "Value", i, tags[t].1);
    }
    PairUpMeans(indices, keys, values, key, value);
    if p :| 0 <= p < |indices| && Decides(p, indices, keys, key) && values[indices[p]] == value {
      DecidingTag(properties, ctx, tags, key, p);
    }
    if i :| 0 <= i < |tags| && tags[i] == (key, value) && LastAsText(tags, i) {
      TagDecides(properties, ctx, tags, i);
    }
  }

  /** For instance, index 9 beats index 10: of two tags with one key, the earlier survives. */
  lemma NineBeatsTen(properties: Node, ctx: Context, tags: seq<(string, string)>)
    requires Walked(properties, ctx) && Tagged(properties, tags) && |tags| >= 11 && tags[9].0 == tags[10].0
    requires forall j :: 0 <= j < |tags| && tags[j].0 == tags[9].0 ==> j == 9 || j == 10
    ensures var read := TagsOf(Flattened(properties, ctx, [], [], 0));
            tags[9].0 in read && read[tags[9].0] == tags[9].1
  {
    hide Flattened, Walked, Tagged, TagsOf, NatText, TextAtMost;
    TenAsText();
    assert LastAsText(tags, 9);
    TagsAreRecovered(properties, ctx, tags, tags[9].0, tags[9].1);
  }

  lemma TenAsText()
    ensures TextAtMost(NatText(10), NatText(9)) && TextAtMost(NatText(9), NatText(9))
  {
    assert NatText(9) == "9" && NatText(1) == "1" && NatText(0) == "0" && NatText(10) == "10";
    assert "10"[0] == '1' && "9"[0] == '9' && "9"[1..] == "";
  }

  /** No tag with the same key has an index that comes later as text. */
  ghost predicate LastAsText(tags: seq<(string, string)>, i: nat)
    requires i < |tags|
  {
    forall j :: 0 <= j < |tags| && tags[j].0 == tags[i].0 ==> TextAtMost(NatText(j), NatText(i))
  }

  lemma TagAtIndex(properties: Node, ctx: Context, tags: seq<(string, string)>, i: nat)
    requires Walked(properties, ctx) && Tagged(properties, tags) && i < |tags|
    ensures var out, index := Flattened(properties, ctx, [], [], 0), NatText(i);
            && index in Gathered(out, "Key") && Gathered(out, "Key")[index] == tags[i].0
            && index in Gathered(out, "Value") && Gathered(out, "Value")[index] == tags[i].1
  {
    hide Flattened, Gathered, NatText, Tagged, Walked;
    SidesAreGathered(properties, ctx, tags, "Key", NatText(i), tags[i].0);
    SidesAreGathered(properties, ctx, tags, "Value", NatText(i), tags[i].1);
  }

  lemma DecidingTag(properties: Node, ctx: Context, tags: seq<(string, string)>, key: string, p: nat)
    requires Walked(properties, ctx) && Tagged(properties, tags)
    requires var keys := Gathered(Flattened(properties, ctx, [], [], 0), "Key");
             (forall i :: i in Arranged(keys.Keys) ==> i in keys) && p < |Arranged(keys.Keys)| && Decides(p, Arranged(keys.Keys), keys, key)
    ensures var out := Flattened(properties, ctx, [], [], 0);
            var index := Arranged(Gathered(out, "Key").Keys)[p];
            index in Gathered(out, "Value") && exists i :: 0 <= i < |tags| && tags[i] == (key, Gathered(out, "Value")[index]) && LastAsText(tags, i)
  {
    hide Flattened, Gathered, NatText, Tagged, Walked, Arranged, TextAtMost, TextLess;
    var keys := Gathered(Flattened(properties, ctx, [], [], 0), "Key");
    var indices := Arranged(keys.Keys);
    ArrangedMembers(keys.Keys);
    ArrangedIsSorted(keys.Keys);
    SidesAreGathered(properties, ctx, tags, "Key", indices[p], key);
    var i :| 0 <= i < |tags| && NatText(i) == indices[p] && tags[i].0 == key;
    TagAtIndex(properties, ctx, tags, i);
    forall j | 0 <= j < |tags| && tags[j].0 == key
      ensures TextAtMost(NatText(j), NatText(i))
    {
      TagAtIndex(properties, ctx, tags, j);
      assert NatText(j) in indices;
      var q :| 0 <= q < |indices| && indices[q] == NatText(j);
      AtMostItself(NatText(i));
    }
  }

  lemma AtMostItself(a: string)
    ensures TextAtMost(a, a)
  {
    TextLessIrreflexive(a);
  }

  lemma TagDecides(properties: Node, ctx: Context, tags: seq<(string, string)>, i: nat)
    requires Walked(properties, ctx) && Tagged(properties, tags) && i < |tags| && LastAsText(tags, i)
    requires var keys := Gathered(Flattened(properties, ctx, [], [], 0), "Key"); forall x :: x in Arranged(keys.Keys) ==> x in keys
    ensures var out := Flattened(properties, ctx, [], [], 0);
            var keys, values := Gathered(out, "Key"), Gathered(out, "Value");
            exists p :: 0 <= p < |Arranged(keys.Keys)| && Decides(p, Arranged(keys.Keys), keys, tags[i].0) && Arranged(keys.Keys)[p] in values
                        && values[Arranged(keys.Keys)[p]] == tags[i].1
  {
    hide Flattened, Gathered, NatText, Tagged, Walked, Arranged, TextAtMost, TextLess;
    var keys := Gathered(Flattened(properties, ctx, [], [], 0), "Key");
    var indices := Arranged(keys.Keys);
    ArrangedMembers(keys.Keys);
    ArrangedIsSorted(keys.Keys);
    TagAtIndex(properties, ctx, tags, i);
    assert NatText(i) in indices;
    var p :| 0 <= p < |indices| && indices[p] == NatText(i);
    forall q | p < q < |indices|
      ensures keys[indices[q]] != tags[i].0
    {
      if keys[indices[q]] == tags[i].0 {
        SidesAreGathered(properties, ctx, tags, "Key", indices[q], tags[i].0);
        var j :| 0 <= j < |tags| && NatText(j) == indices[q] && tags[j].0 == tags[i].0;
        assert TextAtMost(indices[p], indices[q]) && TextAtMost(indices[q], indices[p]);
        BothWays(indices[p], indices[q]);
        Twice(indices, p, q);
      }
    }
    assert Decides(p, indices, keys, tags[i].0);
  }

  lemma BothWays(a: string, b: string)
    requires TextAtMost(a, b) && TextAtMost(b, a)
    ensures a == b
  {
    TextLessTotal(a, b);
  }

  lemma Twice(xs: seq<string>, p: nat, q: nat)
    requires p < q < |xs| && xs[p] == xs[q]
    ensures multiset(xs)[xs[p]] >= 2
  {
    assert xs == xs[..p] + [xs[p]] + xs[p + 1..q] + [xs[q]] + xs[q + 1..];
  }

  /** Distinct keys: exactly the template's tags come back, whatever else the properties hold. */
  lemma DistinctTagsRoundTrip(properties: Node, ctx: Context, tags: seq<(string, string)>, key: string, value: string)
    requires Walked(properties, ctx) && Tagged(properties, tags)
    requires forall i, j :: 0 <= i < |tags| && 0 <= j < |tags| && tags[i].0 == tags[j].0 ==> i == j
    ensures var read := TagsOf(Flattened(properties, ctx, [], [], 0));
            (key in read && read[key] == value) <==> (key, value) in tags
  {
    hide TagsOf, Flattened, Tagged, Walked, NatText, TextAtMost;
    TagsAreRecovered(properties, ctx, tags, key, value);
    forall i | 0 <= i < |tags| ensures LastAsText(tags, i) {
      AtMostItself(NatText(i));
    }
  }
}
