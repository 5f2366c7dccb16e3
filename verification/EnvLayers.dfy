/** The ordered dictionary of an env file, and layering one such dictionary over another. */
module EnvLayers {
  import opened Wrappers
  import opened Text

  datatype Entry = Entry(key: string, value: string)

  /** An ordered dictionary: entries in the order in which their keys first came. */
  type Env = seq<Entry>

  // ---------------------------------------------------------------- the ordered dictionary

  predicate HasKey(m: Env, key: string) { exists i :: 0 <= i < |m| && m[i].key == key }

  function Replaced(m: Env, key: string, value: string): (after: Env)
    ensures |after| == |m|
    ensures forall i :: 0 <= i < |m| ==> after[i] == if m[i].key == key then Entry(key, value) else m[i]
  {
    seq(|m|, i requires 0 <= i < |m| => if m[i].key == key then Entry(key, value) else m[i])
  }

  /** An assignment: a known key keeps its place, a new one comes last. */
  function Put(m: Env, e: Entry): Env { if HasKey(m, e.key) then Replaced(m, e.key, e.value) else m + [e] }

  function Overlay(m: Env, over: Env): Env {
    if over == [] then m else Put(Overlay(m, over[..|over| - 1]), over[|over| - 1])
  }

  function Lookup(m: Env, key: string): Option<string> {
    if m == [] then None
    else if m[|m| - 1].key == key then Some(m[|m| - 1].value)
    else Lookup(m[..|m| - 1], key)
  }

  ghost predicate UniqueKeys(m: Env) { forall i, j :: 0 <= i < j < |m| ==> m[i].key != m[j].key }

  lemma PutKeys(m: Env, e: Entry, key: string)
    ensures HasKey(Put(m, e), key) <==> key == e.key || HasKey(m, key)
  {
    var after := Put(m, e);
    if HasKey(m, e.key) {
      assert forall i :: 0 <= i < |m| ==> after[i].key == m[i].key;
      if i :| 0 <= i < |m| && m[i].key == key {
        assert after[i].key == key;
      }
    } else {
      assert after[|m|] == e && forall i :: 0 <= i < |m| ==> after[i] == m[i];
      if i :| 0 <= i < |m| && m[i].key == key {
        assert after[i].key == key;
      }
    }
  }

  lemma SplitKeys(m: Env, key: string)
    requires m != []
    ensures HasKey(m, key) <==> HasKey(m[..|m| - 1], key) || m[|m| - 1].key == key
  {
    var init := m[..|m| - 1];
    if i :| 0 <= i < |m| && m[i].key == key {
      assert i == |m| - 1 || init[i].key == key;
    }
    if i :| 0 <= i < |init| && init[i].key == key {
      assert m[i].key == key;
    }
    if m[|m| - 1].key == key {
      assert HasKey(m, key);
    }
  }

  lemma PutKeepsUnique(m: Env, e: Entry)
    requires UniqueKeys(m)
    ensures UniqueKeys(Put(m, e))
  {
  }

  lemma {:induction false} OverlayKeepsUnique(m: Env, over: Env)
    requires UniqueKeys(m)
    ensures UniqueKeys(Overlay(m, over))
  {
    hide UniqueKeys, Put;
    if over != [] {
      OverlayKeepsUnique(m, over[..|over| - 1]);
      PutKeepsUnique(Overlay(m, over[..|over| - 1]), over[|over| - 1]);
    }
  }

  lemma {:induction false} OverlayKeys(m: Env, over: Env, key: string)
    ensures HasKey(Overlay(m, over), key) <==> HasKey(m, key) || HasKey(over, key)
  {
    if over != [] {
      var init, last := over[..|over| - 1], over[|over| - 1];
      OverlayKeys(m, init, key);
      PutKeys(Overlay(m, init), last, key);
      assert HasKey(over, key) <==> HasKey(init, key) || last.key == key by {
        SplitKeys(over, key);
      }
      hide Overlay, Put;
    }
  }

  lemma {:induction false} LookupAfterPut(m: Env, e: Entry, key: string)
    ensures Lookup(Put(m, e), key) == if key == e.key then Some(e.value) else Lookup(m, key)
  {
    if HasKey(m, e.key) {
      LookupAfterReplace(m, e, key);
    } else {
      assert (m + [e])[..|m|] == m;
    }
  }

  lemma {:induction false} LookupAfterReplace(m: Env, e: Entry, key: string)
    ensures Lookup(Replaced(m, e.key, e.value), key)
      == if key == e.key && HasKey(m, key) then Some(e.value) else Lookup(m, key)
  {
    if m != [] {
      var init, last := m[..|m| - 1], m[|m| - 1];
      LookupAfterReplace(init, e, key);
      assert Replaced(m, e.key, e.value)[..|m| - 1] == Replaced(init, e.key, e.value);
      SplitKeys(m, key);
    }
  }

  /** Layering: the override's value wins, other keys keep theirs. */
  lemma {:induction false} OverrideWins(m: Env, over: Env, key: string)
    ensures Lookup(Overlay(m, over), key) == if Lookup(over, key).Some? then Lookup(over, key) else Lookup(m, key)
  {
    hide Put;
    if over != [] {
      OverrideWins(m, over[..|over| - 1], key);
      LookupAfterPut(Overlay(m, over[..|over| - 1]), over[|over| - 1], key);
    }
  }

  // ---------------------------------------------------------------- layering is associative

  lemma PutTwice(m: Env, a: Entry, b: Entry)
    requires a.key == b.key
    ensures Put(Put(m, a), b) == Put(m, b)
  {
    PutKeys(m, a, b.key);
  }

  lemma PutsCommute(m: Env, known: Entry, other: Entry)
    requires HasKey(m, known.key) && known.key != other.key
    ensures Put(Put(m, known), other) == Put(Put(m, other), known)
  {
    PutKeys(m, known, other.key);
    PutKeys(m, other, known.key);
    hide HasKey;
  }

  lemma PutAtTheEnd(init: Env, last: Entry, e: Entry)
    requires UniqueKeys(init + [last]) && HasKey(init + [last], e.key)
    ensures if last.key == e.key then Put(init + [last], e) == init + [e]
            else HasKey(init, e.key) && Put(init + [last], e) == Put(init, e) + [last]
  {
    var m := init + [last];
    SplitKeys(m, e.key);
    assert m[..|init|] == init;
    assert forall i :: 0 <= i < |init| ==> m[i] == init[i] && m[i].key != m[|init|].key;
  }

  lemma {:induction false} PutThenOverlay(m: Env, over: Env, e: Entry)
    requires UniqueKeys(over)
    ensures Overlay(m, Put(over, e)) == Put(Overlay(m, over), e)
  {
    if !HasKey(over, e.key) {
      assert (over + [e])[..|over|] == over;
    } else {
      var init, last := over[..|over| - 1], over[|over| - 1];
      assert over == init + [last];
      PutAtTheEnd(init, last, e);
      hide UniqueKeys, HasKey, Put;
      if last.key == e.key {
        OverlaySnoc(m, init, e);
        PutTwice(Overlay(m, init), last, e);
      } else {
        InitUnique(over);
        PutThenOverlay(m, init, e);
        OverlaySnoc(m, Put(init, e), last);
        OverlayKeys(m, init, e.key);
        PutsCommute(Overlay(m, init), e, last);
      }
    }
  }

  lemma OverlaySnoc(m: Env, over: Env, e: Entry)
    ensures Overlay(m, over + [e]) == Put(Overlay(m, over), e)
  {
    assert (over + [e])[..|over|] == over;
  }

  lemma InitUnique(m: Env)
    requires UniqueKeys(m) && m != []
    ensures UniqueKeys(m[..|m| - 1])
  {
  }

  /** Template, shared values and environment values: grouping does not matter. */
  lemma {:induction false} LayeringIsAssociative(a: Env, b: Env, c: Env)
    requires UniqueKeys(b)
    ensures Overlay(Overlay(a, b), c) == Overlay(a, Overlay(b, c))
  {
    hide UniqueKeys, Put;
    if c != [] {
      var init, last := c[..|c| - 1], c[|c| - 1];
      LayeringIsAssociative(a, b, init);
      OverlayKeepsUnique(b, init);
      PutThenOverlay(a, Overlay(b, init), last);
    }
  }
}
