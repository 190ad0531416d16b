/**
 * Configuration values as the YAML loader and the option parser produce them
 * (nested hashes with string keys, arrays and scalars), Ruby's lookup and
 * truthiness on them, and `NoLorem.deep_merge_hashes`, which lays the
 * command-line options over the configuration file.
 */
module Config {
  import opened Wrappers

  /** A hash keeps its entries in insertion order, as a Ruby Hash does. */
  datatype Value =
    | Nil
    | Bool(b: bool)
    | Int(i: int)
    | Str(s: string)
    | List(items: seq<Value>)
    | Hash(entries: seq<(string, Value)>)

  type Entries = seq<(string, Value)>

  function Keys(es: Entries): (r: seq<string>)
    ensures |r| == |es|
    ensures forall i :: 0 <= i < |es| ==> r[i] == es[i].0
  {
    seq(|es|, i requires 0 <= i < |es| => es[i].0)
  }

  predicate HasKey(es: Entries, k: string) {
    exists i :: 0 <= i < |es| && es[i].0 == k
  }

  /** Position of the first entry for `k`, or `|es|` when there is none. */
  function FirstIndex(es: Entries, k: string): (r: nat)
    ensures r <= |es|
    ensures r < |es| ==> es[r].0 == k
    ensures forall j :: 0 <= j < r ==> es[j].0 != k
  {
    if es == [] then 0 else if es[0].0 == k then 0 else 1 + FirstIndex(es[1..], k)
  }

  /** `hash[k]`: the value stored under `k`, `nil` when the key is absent. */
  function Get(es: Entries, k: string): (r: Value)
    ensures !HasKey(es, k) ==> r == Nil
    ensures HasKey(es, k) ==> FirstIndex(es, k) < |es| && r == es[FirstIndex(es, k)].1
  {
    if es == [] then Nil
    else if es[0].0 == k then es[0].1
    else
      assert HasKey(es, k) ==> HasKey(es[1..], k) by {
        if HasKey(es, k) {
          var i :| 0 <= i < |es| && es[i].0 == k;
          assert es[1..][i - 1].0 == k;
        }
      }
      Get(es[1..], k)
  }

  /** Ruby truthiness: everything but `nil` and `false`. */
  predicate Truthy(v: Value) {
    !(v.Nil? || v == Bool(false))
  }

  /** `Hash#delete(k)` / `Hash#except(k)`: the entries without key `k`. */
  function Remove(es: Entries, k: string): (r: Entries)
    ensures !HasKey(r, k)
    ensures forall j :: j != k ==> Get(r, j) == Get(es, j)
    ensures forall j :: j != k ==> (HasKey(r, j) <==> HasKey(es, j))
  {
    if es == [] then []
    else
      HasKeyCons(es[0], es[1..]);
      assert es == [es[0]] + es[1..];
      if es[0].0 == k then Remove(es[1..], k)
      else
        var rest := Remove(es[1..], k);
        HasKeyCons(es[0], rest);
        assert ([es[0]] + rest)[1..] == rest;
        [es[0]] + rest
  }

  lemma HasKeyCons(e: (string, Value), es: Entries)
    ensures forall j :: HasKey([e] + es, j) <==> e.0 == j || HasKey(es, j)
  {
    forall j ensures HasKey([e] + es, j) <==> e.0 == j || HasKey(es, j) {
      assert ([e] + es)[0] == e;
      if HasKey(es, j) {
        var i :| 0 <= i < |es| && es[i].0 == j;
        assert ([e] + es)[i + 1] == es[i];
      }
      if HasKey([e] + es, j) && e.0 != j {
        var i :| 0 <= i < |[e] + es| && ([e] + es)[i].0 == j;
        assert es[i - 1] == ([e] + es)[i];
      }
    }
  }

  lemma {:induction false} GetAppend(a: Entries, b: Entries, k: string)
    ensures Get(a + b, k) == if HasKey(a, k) then Get(a, k) else Get(b, k)
    ensures HasKey(a + b, k) <==> HasKey(a, k) || HasKey(b, k)
    decreases |a|
  {
    if a != [] {
      assert (a + b)[1..] == a[1..] + b;
      GetAppend(a[1..], b, k);
      if a[0].0 != k {
        assert HasKey(a, k) ==> HasKey(a[1..], k) by {
          if HasKey(a, k) {
            var i :| 0 <= i < |a| && a[i].0 == k;
            assert a[1..][i - 1].0 == k;
          }
        }
        assert HasKey(a[1..], k) ==> HasKey(a, k) by {
          if HasKey(a[1..], k) {
            var i :| 0 <= i < |a[1..]| && a[1..][i].0 == k;
            assert a[i + 1].0 == k;
          }
        }
        assert HasKey(a + b, k) ==> HasKey((a + b)[1..], k) by {
          if HasKey(a + b, k) {
            var i :| 0 <= i < |a + b| && (a + b)[i].0 == k;
            assert (a + b)[1..][i - 1].0 == k;
          }
        }
        assert HasKey((a + b)[1..], k) ==> HasKey(a + b, k) by {
          if HasKey((a + b)[1..], k) {
            var i :| 0 <= i < |(a + b)[1..]| && (a + b)[1..][i].0 == k;
            assert (a + b)[i + 1].0 == k;
          }
        }
      } else {
        assert (a + b)[0].0 == k;
      }
    } else {
      assert a + b == b;
    }
  }

  // ---------------------------------------------------------------------------
  // deep_merge_hashes

  /** The merge fails where Ruby raises: a hash laid over by something that is
      not a hash (NoMethodError), an array by something that is not an array
      (TypeError). The key is the one at which it happens. */
  datatype MergeError = NotAHash(key: string) | NotAnArray(key: string)

  /** The merged value of a key that both hashes hold. */
  function MergeShared(key: string, ov: Value, ev: Value): Result<Value, MergeError>
    decreases ov, 2
  {
    if ov.Hash? then
      if ev.Hash? then
        var m :- Merge(ov.entries, ev.entries);
        Ok(Hash(m))
      else Err(NotAHash(key))
    else if ov.List? then
      if ev.List? then Ok(List(ov.items + ev.items)) else Err(NotAnArray(key))
    else Ok(ev)
  }

  /** The merged value for one key of the original hash. */
  function MergeEntry(o: Entries, e: Entries, i: nat): Result<Value, MergeError>
    requires i < |o|
    decreases Hash(o), 0, 0
  {
    if HasKey(e, o[i].0) then MergeShared(o[i].0, o[i].1, Get(e, o[i].0)) else Ok(o[i].1)
  }

  /** The entries produced by the first loop of the source, for `o[i..]`. */
  function MergeOriginal(o: Entries, e: Entries, i: nat): (r: Result<Entries, MergeError>)
    requires i <= |o|
    ensures r.Ok? ==> |r.value| == |o| - i
    ensures r.Ok? ==> forall j :: i <= j < |o| ==>
      r.value[j - i].0 == o[j].0 && MergeEntry(o, e, j).Ok? && r.value[j - i].1 == MergeEntry(o, e, j).value
    decreases Hash(o), 0, |o| - i
  {
    if i == |o| then Ok([])
    else
      var head := MergeEntry(o, e, i);
      if head.Err? then Err(head.error)
      else
        var tail := MergeOriginal(o, e, i + 1);
        if tail.Err? then Err(tail.error)
        else Ok([(o[i].0, head.value)] + tail.value)
  }

  /** `extra.keys - original.keys`, with their values, in the order of `e`. */
  function ExtraOnly(o: Entries, e: Entries): (r: Entries)
    ensures forall j :: 0 <= j < |r| ==> !HasKey(o, r[j].0)
  {
    if e == [] then []
    else
      var last := e[|e| - 1];
      ExtraOnly(o, e[..|e| - 1]) + (if HasKey(o, last.0) then [] else [last])
  }

  /** `deep_merge_hashes(o, e)`. */
  function Merge(o: Entries, e: Entries): Result<Entries, MergeError>
    decreases Hash(o), 1
  {
    var front :- MergeOriginal(o, e, 0);
    Ok(front + ExtraOnly(o, e))
  }

  /** The source's loops: a fresh result filled key by key, recursing into
      hashes. */
  method DeepMergeHashes(original: Entries, extra: Entries) returns (r: Result<Entries, MergeError>)
    ensures r == Merge(original, extra)
    decreases Hash(original)
  {
    var result: Entries := [];
    for i := 0 to |original|
      invariant |result| == i
      invariant forall j :: 0 <= j < i ==>
        result[j].0 == original[j].0 && MergeEntry(original, extra, j) == Ok(result[j].1)
    {
      var key, val := original[i].0, original[i].1;
      var merged: Value;
      if HasKey(extra, key) {
        var ev := Get(extra, key);
        if val.Hash? {
          if !ev.Hash? {
            r := Err(NotAHash(key));
            MergeFailsAt(original, extra, i);
            return;
          }
          var sub := DeepMergeHashes(val.entries, ev.entries);
          if sub.Err? {
            r := Err(sub.error);
            MergeFailsAt(original, extra, i);
            return;
          }
          merged := Hash(sub.value);
        } else if val.List? {
          if !ev.List? {
            r := Err(NotAnArray(key));
            MergeFailsAt(original, extra, i);
            return;
          }
          merged := List(val.items + ev.items);
        } else {
          merged := ev;
        }
      } else {
        merged := val;
      }
      result := result + [(key, merged)];
    }
    ghost var front := result;
    for j := 0 to |extra|
      invariant result == front + ExtraOnly(original, extra[..j])
    {
      assert extra[..j + 1][..j] == extra[..j];
      if !HasKey(original, extra[j].0) {
        result := result + [extra[j]];
      }
    }
    assert extra[..|extra|] == extra;
    MergeSucceeds(original, extra, front);
    r := Ok(result);
  }

  lemma MergeFailsAt(o: Entries, e: Entries, i: nat)
    requires i < |o| && MergeEntry(o, e, i).Err?
    ensures Merge(o, e) == Err(MergeEntry(o, e, i).error)
    requires forall j :: 0 <= j < i ==> MergeEntry(o, e, j).Ok?
  {
    MergeOriginalFailsAt(o, e, 0, i);
  }

  lemma {:induction false} MergeOriginalFailsAt(o: Entries, e: Entries, start: nat, i: nat)
    requires start <= i < |o| && MergeEntry(o, e, i).Err?
    requires forall j :: start <= j < i ==> MergeEntry(o, e, j).Ok?
    ensures MergeOriginal(o, e, start) == Err(MergeEntry(o, e, i).error)
    decreases i - start
  {
    if start < i {
      MergeOriginalFailsAt(o, e, start + 1, i);
    }
  }

  lemma MergeSucceeds(o: Entries, e: Entries, front: Entries)
    requires |front| == |o|
    requires forall j :: 0 <= j < |o| ==> front[j].0 == o[j].0 && MergeEntry(o, e, j) == Ok(front[j].1)
    ensures Merge(o, e) == Ok(front + ExtraOnly(o, e))
  {
    var m := MergeOriginal(o, e, 0);
    MergeOriginalFails(o, e, 0);
    assert m.Ok?;
    assert m.value == front;
  }

  // ---------------------------------------------------------------------------
  // What the merge promises

  lemma {:induction false} ExtraOnlyKeys(o: Entries, e: Entries, k: string)
    ensures HasKey(ExtraOnly(o, e), k) <==> HasKey(e, k) && !HasKey(o, k)
    ensures !HasKey(o, k) ==> Get(ExtraOnly(o, e), k) == Get(e, k)
    decreases |e|
  {
    if e != [] {
      var init, last := e[..|e| - 1], e[|e| - 1];
      ExtraOnlyKeys(o, init, k);
      assert e == init + [last];
      GetAppend(init, [last], k);
      GetOne(last, k);
      var front := ExtraOnly(o, init);
      if HasKey(o, last.0) {
        assert ExtraOnly(o, e) == front + [];
        assert front + [] == front;
      } else {
        assert ExtraOnly(o, e) == front + [last];
        GetAppend(front, [last], k);
      }
    }
  }

  lemma GetOne(x: (string, Value), k: string)
    ensures HasKey([x], k) <==> x.0 == k
    ensures Get([x], k) == if x.0 == k then x.1 else Nil
  {
    assert [x][0] == x;
  }

  /** The merged hash holds exactly the keys of both inputs: the original's
      first, in their order, then those only the extra has. */
  lemma MergeKeys(o: Entries, e: Entries)
    requires Merge(o, e).Ok?
    ensures Keys(Merge(o, e).value) == Keys(o) + Keys(ExtraOnly(o, e))
    ensures forall k :: HasKey(Merge(o, e).value, k) <==> HasKey(o, k) || HasKey(e, k)
  {
    var front, extra := MergeOriginal(o, e, 0).value, ExtraOnly(o, e);
    var r := Merge(o, e).value;
    assert r == front + extra;
    KeysAppend(front, extra);
    assert Keys(front) == Keys(o);
    forall k ensures HasKey(r, k) <==> HasKey(o, k) || HasKey(e, k) {
      GetAppend(front, extra, k);
      ExtraOnlyKeys(o, e, k);
      SameKeys(front, o, k);
    }
  }

  lemma KeysAppend(a: Entries, b: Entries)
    ensures Keys(a + b) == Keys(a) + Keys(b)
  {
    assert forall i :: 0 <= i < |b| ==> (a + b)[|a| + i] == b[i];
  }

  lemma {:induction false} SameKeys(a: Entries, b: Entries, k: string)
    requires |a| == |b|
    requires forall i :: 0 <= i < |a| ==> a[i].0 == b[i].0
    ensures FirstIndex(a, k) == FirstIndex(b, k)
    ensures HasKey(a, k) <==> HasKey(b, k)
    decreases |a|
  {
    if a != [] {
      SameKeys(a[1..], b[1..], k);
    }
    if HasKey(a, k) {
      var i :| 0 <= i < |a| && a[i].0 == k;
      assert b[i].0 == k;
    }
    if HasKey(b, k) {
      var i :| 0 <= i < |b| && b[i].0 == k;
      assert a[i].0 == k;
    }
  }

  /** A key of the original holds what the first loop computed for it. */
  lemma MergeValueOfOriginalKey(o: Entries, e: Entries, k: string)
    requires Merge(o, e).Ok? && HasKey(o, k)
    ensures MergeEntry(o, e, FirstIndex(o, k)) == Ok(Get(Merge(o, e).value, k))
  {
    var front := MergeOriginal(o, e, 0).value;
    GetAppend(front, ExtraOnly(o, e), k);
    SameKeys(front, o, k);
    var i := FirstIndex(o, k);
    assert Get(front, k) == front[i].1;
  }

  /** What each key of the merged hash holds: a key of one input only keeps
      that input's value; a key of both holds the merge of the two. */
  lemma MergeValues(o: Entries, e: Entries, k: string)
    requires Merge(o, e).Ok?
    ensures HasKey(o, k) && HasKey(e, k) ==>
      MergeShared(k, Get(o, k), Get(e, k)) == Ok(Get(Merge(o, e).value, k))
    ensures HasKey(o, k) && !HasKey(e, k) ==> Get(Merge(o, e).value, k) == Get(o, k)
    ensures !HasKey(o, k) ==> Get(Merge(o, e).value, k) == Get(e, k)
  {
    if HasKey(o, k) {
      MergeValueOfOriginalKey(o, e, k);
    } else {
      var front := MergeOriginal(o, e, 0).value;
      GetAppend(front, ExtraOnly(o, e), k);
      SameKeys(front, o, k);
      ExtraOnlyKeys(o, e, k);
    }
  }

  lemma {:induction false} FirstIndexUnique(es: Entries, k: string, i: nat)
    requires i < |es| && es[i].0 == k
    requires forall j :: 0 <= j < i ==> es[j].0 != k
    ensures FirstIndex(es, k) == i
    decreases i
  {
    if i > 0 {
      FirstIndexUnique(es[1..], k, i - 1);
    }
  }

  lemma {:induction false} MergeOriginalFails(o: Entries, e: Entries, i: nat)
    requires i <= |o|
    ensures MergeOriginal(o, e, i).Err? <==> exists j :: i <= j < |o| && MergeEntry(o, e, j).Err?
    decreases |o| - i
  {
    if i == |o| {
      assert MergeOriginal(o, e, i) == Ok([]);
    } else {
      if MergeEntry(o, e, i).Err? {
        assert MergeOriginal(o, e, i) == Err(MergeEntry(o, e, i).error);
        assert i <= i < |o| && MergeEntry(o, e, i).Err?;
      } else {
        MergeOriginalFails(o, e, i + 1);
        if MergeOriginal(o, e, i + 1).Err? {
          var j :| i + 1 <= j < |o| && MergeEntry(o, e, j).Err?;
          assert i <= j < |o| && MergeEntry(o, e, j).Err?;
        } else {
          assert MergeOriginal(o, e, i).Ok?;
          assert forall j :: i <= j < |o| ==> MergeEntry(o, e, j).Ok?;
        }
      }
    }
  }

  /** The merge fails exactly when some key both hold cannot be merged. */
  lemma MergeFails(o: Entries, e: Entries)
    ensures Merge(o, e).Err? <==>
      exists i :: 0 <= i < |o| && HasKey(e, o[i].0) && MergeShared(o[i].0, o[i].1, Get(e, o[i].0)).Err?
  {
    MergeOriginalFails(o, e, 0);
    if Merge(o, e).Err? {
      var i :| 0 <= i < |o| && MergeEntry(o, e, i).Err?;
      assert HasKey(e, o[i].0);
    }
  }

  /** Merging with nothing gives back the original. */
  lemma {:induction false} MergeNothing(o: Entries)
    ensures Merge(o, []) == Ok(o)
  {
    var front := MergeOriginal(o, [], 0);
    MergeOriginalFails(o, [], 0);
    assert front.Ok?;
    forall j | 0 <= j < |o| ensures front.value[j] == o[j] {
      assert MergeEntry(o, [], j) == Ok(o[j].1);
    }
    assert front.value == o;
    assert ExtraOnly(o, []) == [];
    assert o + [] == o;
  }
}
