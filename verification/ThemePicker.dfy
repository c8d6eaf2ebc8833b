/**
 The loops of `gtkhx_theme_list_available_at` (src/gtkhx_theme.c:1306-1498), the sort, and
 the loader's tries in turn (src/gtkhx_theme.c:1093-1179).
 */
module ThemePicker {
  import opened Wrappers
  import opened Themes

  /** `theme_entry_cmp`: "default" before all others, which go by title as `le` has it. */
  predicate Before(a: Entry, b: Entry, le: (string, string) -> bool) {
    a.name == "default" || (b.name != "default" && le(a.display, b.display))
  }

  predicate Sorted(out: seq<Entry>, le: (string, string) -> bool) {
    forall i, j | 0 <= i < j < |out| :: Before(out[i], out[j], le)
  }

  /** A locale's order: total, and one after another stays after. */
  ghost predicate Collation(le: (string, string) -> bool) {
    && (forall a, b :: le(a, b) || le(b, a))
    && (forall a, b, c :: le(a, b) && le(b, c) ==> le(a, c))
  }

  /** The list being built and the names in it: `out` and `seen`. */
  class Picker {
    var out: seq<Entry>
    var seen: set<string>

    ghost predicate Valid()
      reads this
    {
      forall name :: name in seen <==> Has(out, name)
    }

    constructor ()
      ensures Valid() && out == []
    {
      out, seen := [], {};
    }

    /** What is done with a name that was come across (src/gtkhx_theme.c:1379-1398, 1459-1476). */
    method Offer(c: Option<Candidate>, ghost before: seq<Entry>, ghost cs: seq<Candidate>, ghost rest: seq<Candidate>)
      requires Valid() && Collect(out, AsList(c) + rest) == Collect(before, cs)
      modifies this
      ensures Valid() && Collect(out, rest) == Collect(before, cs)
    {
      if c.None? {
        assert AsList(c) + rest == rest;
        return;
      }
      assert (AsList(c) + rest)[1..] == rest;
      if !Safe(c.value.name) {
        return;
      }
      if c.value.name in seen {
        return;
      }
      HasGrows(out, EntryOf(c.value));
      out := out + [EntryOf(c.value)];
      seen := seen + {c.value.name};
    }

    static lemma HasGrows(out: seq<Entry>, e: Entry)
      ensures forall name :: Has(out + [e], name) <==> Has(out, name) || e.name == name
    {
      forall name ensures Has(out + [e], name) <==> Has(out, name) || e.name == name {
        HasAppended(out, e, name);
      }
    }

    static lemma UserNext(t: Sources, children: seq<string>, i: nat, pass: nat, rest: seq<Candidate>)
      requires i < |children|
      ensures UserPass(t, children[i..], pass) + rest
           == AsList(UserCandidate(t, children[i], pass)) + (UserPass(t, children[i + 1..], pass) + rest)
    {
      assert children[i..][1..] == children[i + 1..];
    }

    /** One pass over the user's folder. */
    method WalkUser(t: Sources, pass: nat, ghost rest: seq<Candidate>)
      requires Valid()
      modifies this
      ensures Valid() && Collect(out, rest) == Collect(old(out), UserPass(t, t.userOrder, pass) + rest)
    {
      ghost var cs := UserPass(t, t.userOrder, pass) + rest;
      assert t.userOrder[0..] == t.userOrder;
      for i := 0 to |t.userOrder|
        invariant Valid() && Collect(out, UserPass(t, t.userOrder[i..], pass) + rest) == Collect(old(out), cs)
      {
        UserNext(t, t.userOrder, i, pass, rest);
        var c := UserCandidate(t, t.userOrder[i], pass);
        Offer(c, old(out), cs, UserPass(t, t.userOrder[i + 1..], pass) + rest);
      }
      assert [] + rest == rest;
    }

    static lemma BuiltinNext(t: Sources, children: seq<string>, i: nat, pass: nat, rest: seq<Candidate>)
      requires i < |children|
      ensures BuiltinPass(t, children[i..], pass) + rest
           == AsList(BuiltinCandidate(t, children[i], pass)) + (BuiltinPass(t, children[i + 1..], pass) + rest)
    {
      assert children[i..][1..] == children[i + 1..];
    }

    /** One pass over the built-in themes. */
    method WalkBuiltin(t: Sources, pass: nat, ghost rest: seq<Candidate>)
      requires Valid()
      modifies this
      ensures Valid() && Collect(out, rest) == Collect(old(out), BuiltinPass(t, t.builtinOrder, pass) + rest)
    {
      ghost var cs := BuiltinPass(t, t.builtinOrder, pass) + rest;
      assert t.builtinOrder[0..] == t.builtinOrder;
      for i := 0 to |t.builtinOrder|
        invariant Valid() && Collect(out, BuiltinPass(t, t.builtinOrder[i..], pass) + rest) == Collect(old(out), cs)
      {
        BuiltinNext(t, t.builtinOrder, i, pass, rest);
        var c := BuiltinCandidate(t, t.builtinOrder[i], pass);
        Offer(c, old(out), cs, BuiltinPass(t, t.builtinOrder[i + 1..], pass) + rest);
      }
      assert [] + rest == rest;
    }

    /** The four passes, and "default" when none had it. */
    method Gather(t: Sources)
      requires Valid() && out == []
      modifies this
      ensures out == Listed(t)
    {
      ghost var a, b := UserPass(t, t.userOrder, 0), UserPass(t, t.userOrder, 1);
      ghost var c, d := BuiltinPass(t, t.builtinOrder, 0), BuiltinPass(t, t.builtinOrder, 1);
      assert a + (b + (c + (d + []))) == a + b + c + d;
      WalkUser(t, 0, b + (c + (d + [])));
      WalkUser(t, 1, c + (d + []));
      WalkBuiltin(t, 0, d + []);
      WalkBuiltin(t, 1, []);
      if "default" !in seen {
        out := out + [Entry("default", "Default")];
      }
    }
  }

  lemma PlacedSorted(out: seq<Entry>, i: nat, e: Entry, le: (string, string) -> bool)
    requires i <= |out| && Sorted(out, le)
    requires forall j | 0 <= j < i :: Before(out[j], e, le)
    requires forall j | i <= j < |out| :: Before(e, out[j], le)
    ensures Sorted(out[..i] + [e] + out[i..], le)
  {
    var r := out[..i] + [e] + out[i..];
    assert forall j | 0 <= j < |r| :: r[j] == if j < i then out[j] else if j == i then e else out[j - 1];
  }

  lemma PlacedMultiset(out: seq<Entry>, i: nat, e: Entry)
    requires i <= |out|
    ensures multiset(out[..i] + [e] + out[i..]) == multiset(out) + multiset{e}
  {
    assert out == out[..i] + out[i..];
  }

  lemma BeforeUpTo(out: seq<Entry>, i: nat, e: Entry, le: (string, string) -> bool)
    requires Collation(le) && Sorted(out, le) && 0 < i <= |out| && Before(out[i - 1], e, le)
    ensures forall j | 0 <= j < i :: Before(out[j], e, le)
  {
    forall j | 0 <= j < i ensures Before(out[j], e, le) {
      if j < i - 1 {
        assert Before(out[j], out[i - 1], le);
      }
    }
  }

  /** An entry put in its place among sorted ones. */
  method Place(out: seq<Entry>, e: Entry, le: (string, string) -> bool) returns (r: seq<Entry>)
    requires Collation(le) && Sorted(out, le)
    ensures Sorted(r, le) && multiset(r) == multiset(out) + multiset{e}
  {
    var i := |out|;
    while i > 0 && !Before(out[i - 1], e, le)
      invariant 0 <= i <= |out|
      invariant forall j | i <= j < |out| :: Before(e, out[j], le)
    {
      i := i - 1;
    }
    if i > 0 {
      BeforeUpTo(out, i, e, le);
    }
    r := out[..i] + [e] + out[i..];
    PlacedSorted(out, i, e, le);
    PlacedMultiset(out, i, e);
  }

  /** `g_ptr_array_sort`. */
  method Sort(list: seq<Entry>, le: (string, string) -> bool) returns (out: seq<Entry>)
    requires Collation(le)
    ensures Sorted(out, le) && multiset(out) == multiset(list)
  {
    out := [];
    for i := 0 to |list|
      invariant Sorted(out, le) && multiset(out) == multiset(list[..i])
    {
      out := Place(out, list[i], le);
      assert list[..i + 1] == list[..i] + [list[i]];
    }
    assert list[..|list|] == list;
  }

  lemma DefaultIsFirst(out: seq<Entry>, list: seq<Entry>, le: (string, string) -> bool)
    requires Sorted(out, le) && multiset(out) == multiset(list) && DistinctNames(list) && Has(list, "default")
    ensures out != [] && out[0].name == "default"
  {
    var i :| 0 <= i < |list| && list[i].name == "default";
    assert list[i] in multiset(out);
    var j :| 0 <= j < |out| && out[j] == list[i];
    if j > 0 {
      assert Before(out[0], out[j], le);
    }
  }

  /** Past "default" the list goes by title. */
  lemma ByTitle(out: seq<Entry>, list: seq<Entry>, le: (string, string) -> bool)
    requires Sorted(out, le) && multiset(out) == multiset(list) && DistinctNames(list)
    requires out != [] && out[0].name == "default"
    ensures forall i, j | 0 < i < j < |out| :: le(out[i].display, out[j].display)
  {
    forall i, j | 0 < i < j < |out| ensures le(out[i].display, out[j].display) {
      assert Before(out[i], out[j], le);
      if out[i].name == "default" {
        OnlyOneDefault(out, list, i);
      }
    }
  }

  lemma OnlyOneDefault(out: seq<Entry>, list: seq<Entry>, i: nat)
    requires multiset(out) == multiset(list) && DistinctNames(list) && 0 < i < |out|
    ensures out[0].name != out[i].name
  {
    assert out == [out[0]] + out[1..];
    assert out[1..][i - 1] == out[i] && out[i] in multiset(out[1..]);
    assert out[0] in multiset(list) && out[i] in multiset(list);
    var j :| 0 <= j < |list| && list[j] == out[0];
    var k :| 0 <= k < |list| && list[k] == out[i];
    OnceIn(list, out[0], j);
    assert multiset(out)[out[0]] == 1 + multiset(out[1..])[out[0]];
    assert out[0] !in out[1..];
    assert j != k;
  }

  lemma OnceIn(list: seq<Entry>, e: Entry, j: nat)
    requires DistinctNames(list) && j < |list| && list[j] == e
    ensures multiset(list)[e] == 1
  {
    assert list == list[..j] + [e] + list[j + 1..];
    assert e !in list[..j] && e !in list[j + 1..];
  }

  /**
   `gtkhx_theme_list_available_at`: the entries of `Listed`, by title, with "default" first.
   */
  method ListAvailable(t: Sources, le: (string, string) -> bool) returns (out: seq<Entry>)
    requires Collation(le)
    ensures multiset(out) == multiset(Listed(t)) && Sorted(out, le)
    ensures out != [] && out[0].name == "default"
    ensures forall i, j | 0 < i < j < |out| :: le(out[i].display, out[j].display)
  {
    var picker := new Picker();
    picker.Gather(t);
    out := Sort(picker.out, le);
    ListedNames(t);
    DefaultIsFirst(out, Listed(t), le);
    ByTitle(out, Listed(t), le);
  }

  /** `load_user_theme` and `load_builtin_theme`, up to the last resort. */
  method FindTheme(t: Sources, name: string) returns (place: Option<Place>)
    ensures place == Opened(t, name)
  {
    var folder, flat := FileAt(t, UserFolder(name)), FileAt(t, UserFlat(name + ".ini"));
    if folder.Some? {
      if folder.value.parses {
        return Some(UserFolder(name));
      }
    }
    if flat.Some? {
      if flat.value.parses {
        return Some(UserFlat(name + ".ini"));
      }
    }
    folder, flat := FileAt(t, BuiltinFolder(name)), FileAt(t, BuiltinFlat(name + ".ini"));
    if folder.Some? && folder.value.parses {
      return Some(BuiltinFolder(name));
    }
    if flat.Some? && flat.value.parses {
      return Some(BuiltinFlat(name + ".ini"));
    }
    place := None;
  }
}
