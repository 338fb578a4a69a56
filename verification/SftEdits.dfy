/** Looking up, setting, comparing and overriding settings, on ordered sections in which
  * names and keys may repeat.
  *
  * Everything is stated through lookups: `Put` is a map update, `Diff` and `Overrides`
  * have an exact lookup law, and from those laws the overrides are a patch.
  */
module SftEdits {
  import opened Wrappers
  import opened SftText

  /** One key with its section, as the loops visit them. */
  datatype Item = Item(section: string, key: string, value: string)

  function ItemsOf(name: string, es: seq<Entry>): (items: seq<Item>)
    ensures |items| == |es|
  {
    seq(|es|, i requires 0 <= i < |es| => Item(name, es[i].key, es[i].value))
  }

  function Items(secs: seq<Section>): seq<Item> {
    if secs == [] then []
    else
      var s := secs[|secs| - 1];
      Items(secs[..|secs| - 1]) + ItemsOf(s.name, s.entries)
  }

  function Or(a: Option<string>, b: Option<string>): Option<string> {
    if a.Some? then a else b
  }

  // ---------- lookup and update ----------

  function FindIn(es: seq<Entry>, key: string): Option<string> {
    if es == [] then None
    else if es[0].key == key then Some(es[0].value)
    else FindIn(es[1..], key)
  }

  /** The first value of the key in any section of that name. */
  function Find(secs: seq<Section>, sec: string, key: string): Option<string> {
    if secs == [] then None
    else Or(if secs[0].name == sec then FindIn(secs[0].entries, key) else None, Find(secs[1..], sec, key))
  }

  function PutIn(es: seq<Entry>, key: string, val: string): seq<Entry> {
    if es == [] then [Entry(key, val)]
    else if es[0].key == key then [Entry(key, val)] + es[1..]
    else [es[0]] + PutIn(es[1..], key, val)
  }

  /** The first section of that name is updated; without one, a section is appended. */
  function Put(secs: seq<Section>, sec: string, key: string, val: string): seq<Section> {
    if secs == [] then [Section(sec, [Entry(key, val)])]
    else if secs[0].name == sec then [secs[0].(entries := PutIn(secs[0].entries, key, val))] + secs[1..]
    else [secs[0]] + Put(secs[1..], sec, key, val)
  }

  function PutItems(secs: seq<Section>, items: seq<Item>): seq<Section>
    decreases |items|
  {
    if items == [] then secs
    else
      var it := items[|items| - 1];
      Put(PutItems(secs, items[..|items| - 1]), it.section, it.key, it.value)
  }

  lemma {:induction false} FindInPut(es: seq<Entry>, key: string, val: string, k: string)
    ensures FindIn(PutIn(es, key, val), k) == if k == key then Some(val) else FindIn(es, k)
  {
    if es != [] && es[0].key != key {
      FindInPut(es[1..], key, val, k);
      assert PutIn(es, key, val)[1..] == PutIn(es[1..], key, val);
    } else if es != [] {
      assert PutIn(es, key, val)[1..] == es[1..];
    }
  }

  /** Setting a key makes it read back and leaves every other lookup as it was, even with
    * repeated section names and keys. */
  lemma {:induction false} SetIsAMapUpdate(secs: seq<Section>, sec: string, key: string, val: string, s: string, k: string)
    ensures Find(Put(secs, sec, key, val), s, k)
         == if s == sec && k == key then Some(val) else Find(secs, s, k)
  {
    var r := Put(secs, sec, key, val);
    if secs == [] {
      assert FindIn([Entry(key, val)], k) == if k == key then Some(val) else None;
    } else if secs[0].name == sec {
      assert r[1..] == secs[1..];
      FindInPut(secs[0].entries, key, val, k);
    } else {
      assert r[1..] == Put(secs[1..], sec, key, val);
      SetIsAMapUpdate(secs[1..], sec, key, val, s, k);
    }
  }

  /** The last value a list of items gives a key. */
  function Last(items: seq<Item>, s: string, k: string): Option<string>
    decreases |items|
  {
    if items == [] then None
    else
      var it := items[|items| - 1];
      if it.section == s && it.key == k then Some(it.value) else Last(items[..|items| - 1], s, k)
  }

  /** After setting a list of items, the last one for a key wins. */
  lemma {:induction false} FindAfterItems(secs: seq<Section>, items: seq<Item>, s: string, k: string)
    ensures Find(PutItems(secs, items), s, k) == Or(Last(items, s, k), Find(secs, s, k))
    decreases |items|
  {
    if items != [] {
      var it := items[|items| - 1];
      FindAfterItems(secs, items[..|items| - 1], s, k);
      SetIsAMapUpdate(PutItems(secs, items[..|items| - 1]), it.section, it.key, it.value, s, k);
    }
  }

  lemma {:induction false} LastOfJoined(a: seq<Item>, b: seq<Item>, s: string, k: string)
    ensures Last(a + b, s, k) == Or(Last(b, s, k), Last(a, s, k))
    decreases |b|
  {
    if b == [] {
      assert a + b == a;
    } else {
      assert (a + b)[..|a + b| - 1] == a + b[..|b| - 1];
      LastOfJoined(a, b[..|b| - 1], s, k);
    }
  }

  // ---------- repeated keys ----------

  /** No section-and-key pair occurs twice. */
  predicate NoRepeats(items: seq<Item>)
    decreases |items|
  {
    items != [] ==>
      var it := items[|items| - 1];
      NoRepeats(items[..|items| - 1]) && Last(items[..|items| - 1], it.section, it.key).None?
  }

  function Names(secs: seq<Section>): set<string> {
    if secs == [] then {} else {secs[0].name} + Names(secs[1..])
  }

  function Keys(es: seq<Entry>): set<string> {
    if es == [] then {} else {es[0].key} + Keys(es[1..])
  }

  predicate UniqueKeys(es: seq<Entry>) {
    es != [] ==> es[0].key !in Keys(es[1..]) && UniqueKeys(es[1..])
  }

  /** No section name, and no key within a section, occurs twice. */
  predicate Unique(secs: seq<Section>) {
    secs != [] ==>
      secs[0].name !in Names(secs[1..]) && UniqueKeys(secs[0].entries) && Unique(secs[1..])
  }

  lemma {:induction false} PutInKeepsUnique(es: seq<Entry>, key: string, val: string)
    requires UniqueKeys(es)
    ensures UniqueKeys(PutIn(es, key, val))
    ensures Keys(PutIn(es, key, val)) == Keys(es) + {key}
  {
    var r := PutIn(es, key, val);
    if es == [] {
      assert r[1..] == [];
    } else if es[0].key == key {
      assert r[1..] == es[1..];
    } else {
      assert r[1..] == PutIn(es[1..], key, val);
      PutInKeepsUnique(es[1..], key, val);
    }
  }

  /** Setting a key introduces no repetition. */
  lemma {:induction false} SetKeepsUnique(secs: seq<Section>, sec: string, key: string, val: string)
    requires Unique(secs)
    ensures Unique(Put(secs, sec, key, val))
    ensures Names(Put(secs, sec, key, val)) == Names(secs) + {sec}
  {
    var r := Put(secs, sec, key, val);
    if secs == [] {
      assert r[1..] == [];
      PutInKeepsUnique([], key, val);
    } else if secs[0].name == sec {
      assert r[1..] == secs[1..];
      PutInKeepsUnique(secs[0].entries, key, val);
    } else {
      assert r[1..] == Put(secs[1..], sec, key, val);
      SetKeepsUnique(secs[1..], sec, key, val);
    }
  }

  lemma {:induction false} ItemsKeepUnique(secs: seq<Section>, items: seq<Item>)
    requires Unique(secs)
    ensures Unique(PutItems(secs, items))
    decreases |items|
  {
    if items != [] {
      var it := items[|items| - 1];
      ItemsKeepUnique(secs, items[..|items| - 1]);
      SetKeepsUnique(PutItems(secs, items[..|items| - 1]), it.section, it.key, it.value);
    }
  }

  // ---------- lists of items against lookups ----------

  /** The first value a list of items gives a key: what the lookup finds. */
  function First(items: seq<Item>, s: string, k: string): Option<string>
    decreases |items|
  {
    if items == [] then None
    else
      var it := items[|items| - 1];
      Or(First(items[..|items| - 1], s, k), if it.section == s && it.key == k then Some(it.value) else None)
  }

  lemma {:induction false} FirstOfJoined(a: seq<Item>, b: seq<Item>, s: string, k: string)
    ensures First(a + b, s, k) == Or(First(a, s, k), First(b, s, k))
    decreases |b|
  {
    if b == [] {
      assert a + b == a;
    } else {
      assert (a + b)[..|a + b| - 1] == a + b[..|b| - 1];
      FirstOfJoined(a, b[..|b| - 1], s, k);
    }
  }

  lemma {:induction false} FirstOfEntries(name: string, es: seq<Entry>, s: string, k: string)
    ensures First(ItemsOf(name, es), s, k) == if s == name then FindIn(es, k) else None
    decreases |es|
  {
    if es != [] {
      var one := Item(name, es[0].key, es[0].value);
      assert ItemsOf(name, es) == [one] + ItemsOf(name, es[1..]);
      FirstOfJoined([one], ItemsOf(name, es[1..]), s, k);
      assert First([one], s, k) == if s == name && k == es[0].key then Some(es[0].value) else None by {
        assert [one][..0] == [];
      }
      FirstOfEntries(name, es[1..], s, k);
    }
  }

  lemma {:induction false} FindJoined(a: seq<Section>, b: seq<Section>, s: string, k: string)
    ensures Find(a + b, s, k) == Or(Find(a, s, k), Find(b, s, k))
  {
    if a == [] {
      assert a + b == b;
    } else {
      assert (a + b)[1..] == a[1..] + b;
      FindJoined(a[1..], b, s, k);
    }
  }

  /** The lookup is the first of the items in order. */
  lemma {:induction false} FindIsFirst(secs: seq<Section>, s: string, k: string)
    ensures Find(secs, s, k) == First(Items(secs), s, k)
    decreases |secs|
  {
    if secs != [] {
      var init := secs[..|secs| - 1];
      var last := secs[|secs| - 1];
      FindIsFirst(init, s, k);
      FirstOfJoined(Items(init), ItemsOf(last.name, last.entries), s, k);
      FirstOfEntries(last.name, last.entries, s, k);
      assert secs == init + [last];
      FindJoined(init, [last], s, k);
    }
  }

  /** Without repetitions the first and the last value of a key are the same. */
  lemma {:induction false} FirstIsLast(items: seq<Item>, s: string, k: string)
    requires NoRepeats(items)
    ensures First(items, s, k) == Last(items, s, k)
    decreases |items|
  {
    if items != [] {
      FirstIsLast(items[..|items| - 1], s, k);
    }
  }

  // ---------- the difference with a baseline ----------

  predicate Differs(it: Item, base: seq<Section>) {
    Find(base, it.section, it.key) != Some(it.value)
  }

  /** The items whose value is not the one the baseline holds. */
  function Changed(items: seq<Item>, base: seq<Section>): seq<Item>
    decreases |items|
  {
    if items == [] then []
    else
      var it := items[|items| - 1];
      Changed(items[..|items| - 1], base) + (if Differs(it, base) then [it] else [])
  }

  function Diff(secs: seq<Section>, base: seq<Section>): seq<Section> {
    PutItems([], Changed(Items(secs), base))
  }

  /** The last value an item list gives a key among those that differ from the baseline. */
  lemma {:induction false} LastChanged(items: seq<Item>, base: seq<Section>, s: string, k: string)
    requires NoRepeats(items)
    ensures Last(Changed(items, base), s, k)
         == if Last(items, s, k) == Find(base, s, k) then None else Last(items, s, k)
    decreases |items|
  {
    if items != [] {
      var init := items[..|items| - 1];
      var it := items[|items| - 1];
      LastChanged(init, base, s, k);
      if Differs(it, base) {
        LastOfJoined(Changed(init, base), [it], s, k);
        assert Last([it], s, k) == if it.section == s && it.key == k then Some(it.value) else None by {
          assert [it][..0] == [];
        }
      } else {
        assert Changed(init, base) + [] == Changed(init, base);
      }
    }
  }

  /** From settings without repetitions, the difference holds exactly the keys whose
    * baseline value is absent or another one, with these settings' value. */
  lemma DiffLookup(secs: seq<Section>, base: seq<Section>, s: string, k: string)
    requires NoRepeats(Items(secs))
    ensures Find(Diff(secs, base), s, k)
         == if Find(secs, s, k) == Find(base, s, k) then None else Find(secs, s, k)
  {
    FindAfterItems([], Changed(Items(secs), base), s, k);
    LastChanged(Items(secs), base, s, k);
    FirstIsLast(Items(secs), s, k);
    FindIsFirst(secs, s, k);
  }

  /** Whatever the settings, the difference repeats no section and no key. */
  lemma DiffIsUnique(secs: seq<Section>, base: seq<Section>)
    ensures Unique(Diff(secs, base))
  {
    ItemsKeepUnique([], Changed(Items(secs), base));
  }

  lemma {:induction false} NothingChanged(items: seq<Item>, base: seq<Section>)
    ensures Changed(items, base) == [] <==> forall it :: it in items ==> !Differs(it, base)
    decreases |items|
  {
    if items != [] {
      NothingChanged(items[..|items| - 1], base);
      assert items == items[..|items| - 1] + [items[|items| - 1]];
    }
  }

  lemma PutIsNotEmpty(secs: seq<Section>, items: seq<Item>)
    requires items != []
    ensures PutItems(secs, items) != []
  {
  }

  /** The difference is empty if and only if every entry, repeated ones included, holds
    * the value the baseline's lookup gives its key. */
  lemma DiffIsEmptyIff(secs: seq<Section>, base: seq<Section>)
    ensures Diff(secs, base) == [] <==> forall it :: it in Items(secs) ==> Find(base, it.section, it.key) == Some(it.value)
  {
    var changed := Changed(Items(secs), base);
    NothingChanged(Items(secs), base);
    assert changed == [] <==> forall it :: it in Items(secs) ==> !Differs(it, base);
    if changed != [] {
      PutIsNotEmpty([], changed);
    }
  }

  /** Settings compared with themselves: repeated keys with another value count as
    * changed, because the lookup of the baseline finds the first. */
  lemma DiffWithItself(secs: seq<Section>)
    ensures Diff(secs, secs) == [] <==> forall it :: it in Items(secs) ==> Find(secs, it.section, it.key) == Some(it.value)
    ensures NoRepeats(Items(secs)) ==> Diff(secs, secs) == []
  {
    DiffIsEmptyIff(secs, secs);
    if NoRepeats(Items(secs)) {
      forall it | it in Items(secs) ensures Find(secs, it.section, it.key) == Some(it.value) {
        var i :| 0 <= i < |Items(secs)| && Items(secs)[i] == it;
        FindIsFirst(secs, it.section, it.key);
        FirstIsLast(Items(secs), it.section, it.key);
        OnlyOccurrence(Items(secs), i);
      }
    }
  }

  lemma {:induction false} OnlyOccurrence(items: seq<Item>, i: nat)
    requires NoRepeats(items) && i < |items|
    ensures Last(items, items[i].section, items[i].key) == Some(items[i].value)
    decreases |items|
  {
    if i < |items| - 1 {
      var init := items[..|items| - 1];
      OnlyOccurrence(init, i);
      assert items[i] == init[i];
    }
  }

  /** A key repeated with another value differs from itself. */
  lemma RepeatedKeyDiffersFromItself()
    ensures var x := [Section("System", [Entry("k", "1"), Entry("k", "2")])];
      Diff(x, x) != [] && Find(Diff(x, x), "System", "k") == Some("2")
  {
    var x := [Section("System", [Entry("k", "1"), Entry("k", "2")])];
    var items := [Item("System", "k", "1"), Item("System", "k", "2")];
    assert Items(x) == items by {
      assert x[..0] == [];
    }
    assert items[..1] == [items[0]];
    assert items[..1][..0] == [];
    assert Find(x, "System", "k") == Some("1");
    assert Changed(items, x) == [items[1]];
    assert [items[1]][..0] == [];
    FindAfterItems([], [items[1]], "System", "k");
  }

  // ---------- overrides ----------

  const VERSION: string := "Version"
  const VERSION_KEY: string := "version"

  /** The keys the console only takes together. */
  function CoupledKeys(section: string): seq<string> {
    if section == "Network" then
      ["upnpFlag", "setDhcpHostName", "secondaryDns", "primaryDns", "httpProxyFlag",
       "howToSetupIp", "etherMode", "enable", "dnsFlag", "dhcpHostName"]
    else if section == "Network.eth2" then ["setDhcpHostName", "howToSetupIp"]
    else []
  }

  /** These settings' value of a key, or else the baseline's. */
  function Effective(secs: seq<Section>, base: seq<Section>, s: string, k: string): Option<string> {
    Or(Find(secs, s, k), Find(base, s, k))
  }

  /** Fill in the coupled keys of one section that are not set yet. */
  function Couple(out: seq<Section>, s: string, keys: seq<string>, secs: seq<Section>, base: seq<Section>): seq<Section>
    decreases |keys|
  {
    if keys == [] then out
    else
      var before := Couple(out, s, keys[..|keys| - 1], secs, base);
      var k := keys[|keys| - 1];
      if Find(before, s, k).None? && Effective(secs, base, s, k).Some?
      then Put(before, s, k, Effective(secs, base, s, k).value)
      else before
  }

  function OverrideSection(out: seq<Section>, changed: Section, secs: seq<Section>, base: seq<Section>): seq<Section> {
    if changed.name == VERSION then out
    else Couple(PutItems(out, ItemsOf(changed.name, changed.entries)), changed.name, CoupledKeys(changed.name), secs, base)
  }

  function OverrideSections(out: seq<Section>, changed: seq<Section>, secs: seq<Section>, base: seq<Section>): seq<Section>
    decreases |changed|
  {
    if changed == [] then out
    else OverrideSection(OverrideSections(out, changed[..|changed| - 1], secs, base), changed[|changed| - 1], secs, base)
  }

  function VersionValue(base: seq<Section>): string {
    var v := Find(base, VERSION, VERSION_KEY);
    if v.Some? then v.value else "1"
  }

  function Overrides(secs: seq<Section>, base: seq<Section>): seq<Section> {
    var changed := Diff(secs, base);
    if changed == [] then []
    else OverrideSections(Put([], VERSION, VERSION_KEY, VersionValue(base)), changed, secs, base)
  }

  lemma {:induction false} CoupleLookup(out: seq<Section>, name: string, keys: seq<string>,
                                        secs: seq<Section>, base: seq<Section>, s: string, k: string)
    ensures Find(Couple(out, name, keys, secs, base), s, k)
         == if s == name && k in keys then Or(Find(out, s, k), Effective(secs, base, s, k)) else Find(out, s, k)
    decreases |keys|
  {
    if keys != [] {
      var init := keys[..|keys| - 1];
      var key := keys[|keys| - 1];
      CoupleLookup(out, name, init, secs, base, s, k);
      CoupleLookup(out, name, init, secs, base, name, key);
      assert keys == init + [key];
      var before := Couple(out, name, init, secs, base);
      if Find(before, name, key).None? && Effective(secs, base, name, key).Some? {
        SetIsAMapUpdate(before, name, key, Effective(secs, base, name, key).value, s, k);
      }
    }
  }

  lemma {:induction false} LastOfEntries(name: string, es: seq<Entry>, s: string, k: string)
    requires UniqueKeys(es)
    ensures Last(ItemsOf(name, es), s, k) == if s == name then FindIn(es, k) else None
    decreases |es|
  {
    if es != [] {
      var one := Item(name, es[0].key, es[0].value);
      assert ItemsOf(name, es) == [one] + ItemsOf(name, es[1..]);
      LastOfJoined([one], ItemsOf(name, es[1..]), s, k);
      assert Last([one], s, k) == if s == name && k == es[0].key then Some(es[0].value) else None by {
        assert [one][..0] == [];
      }
      LastOfEntries(name, es[1..], s, k);
      FoundAreKeys(es[1..], k);
    }
  }

  lemma {:induction false} FoundAreKeys(es: seq<Entry>, k: string)
    ensures FindIn(es, k).Some? <==> k in Keys(es)
  {
    if es != [] {
      FoundAreKeys(es[1..], k);
    }
  }

  /** What one changed section adds to the overrides. */
  function Contribution(changed: Section, secs: seq<Section>, base: seq<Section>, s: string, k: string): Option<string> {
    if changed.name == VERSION || changed.name != s then None
    else Or(FindIn(changed.entries, k), if k in CoupledKeys(s) then Effective(secs, base, s, k) else None)
  }

  lemma OverrideSectionLookup(out: seq<Section>, changed: Section, secs: seq<Section>, base: seq<Section>, s: string, k: string)
    requires UniqueKeys(changed.entries)
    requires changed.name == s && s != VERSION ==> Find(out, s, k).None?
    ensures Find(OverrideSection(out, changed, secs, base), s, k)
         == Or(Contribution(changed, secs, base, s, k), Find(out, s, k))
  {
    var items := ItemsOf(changed.name, changed.entries);
    FindAfterItems(out, items, s, k);
    LastOfEntries(changed.name, changed.entries, s, k);
    CoupleLookup(PutItems(out, items), changed.name, CoupledKeys(changed.name), secs, base, s, k);
  }

  /** The exact lookup law of the overrides built so far. */
  function Expected(changed: seq<Section>, secs: seq<Section>, base: seq<Section>, s: string, k: string): Option<string> {
    if s == VERSION then if k == VERSION_KEY then Some(VersionValue(base)) else None
    else Or(Find(changed, s, k),
            if s in Names(changed) && k in CoupledKeys(s) then Effective(secs, base, s, k) else None)
  }

  lemma {:induction false} OverrideSectionsLookup(changed: seq<Section>, secs: seq<Section>, base: seq<Section>, s: string, k: string)
    requires Unique(changed)
    ensures var first := Put([], VERSION, VERSION_KEY, VersionValue(base));
      Find(OverrideSections(first, changed, secs, base), s, k) == Expected(changed, secs, base, s, k)
    decreases |changed|
  {
    hide Put, Couple, PutItems, UniqueKeys;
    var first := Put([], VERSION, VERSION_KEY, VersionValue(base));
    if changed == [] {
      SetIsAMapUpdate([], VERSION, VERSION_KEY, VersionValue(base), s, k);
    } else {
      var init := changed[..|changed| - 1];
      var last := changed[|changed| - 1];
      assert changed == init + [last];
      UniqueInit(init, last);
      OverrideSectionsLookup(init, secs, base, s, k);
      if last.name == s {
        NotNamedNotFound(init, s, k);
      }
      FindJoined(init, [last], s, k);
      assert Find([last], s, k) == if last.name == s then FindIn(last.entries, k) else None;
      OverrideSectionLookup(OverrideSections(first, init, secs, base), last, secs, base, s, k);
    }
  }

  lemma {:induction false} UniqueInit(init: seq<Section>, last: Section)
    requires Unique(init + [last])
    ensures Unique(init) && last.name !in Names(init) && UniqueKeys(last.entries)
    ensures Names(init + [last]) == Names(init) + {last.name}
  {
    if init == [] {
      assert init + [last] == [last];
      assert [last][1..] == [];
    } else {
      assert (init + [last])[1..] == init[1..] + [last];
      UniqueInit(init[1..], last);
    }
  }

  lemma {:induction false} NotNamedNotFound(secs: seq<Section>, s: string, k: string)
    requires s !in Names(secs)
    ensures Find(secs, s, k).None?
  {
    if secs != [] {
      NotNamedNotFound(secs[1..], s, k);
    }
  }

  /** The exact contents of the overrides: nothing when nothing changed; otherwise the
    * version, every changed key, and every coupled key of a changed section that either
    * side holds. */
  lemma OverridesLookup(secs: seq<Section>, base: seq<Section>, s: string, k: string)
    ensures Find(Overrides(secs, base), s, k)
         == if Diff(secs, base) == [] then None else Expected(Diff(secs, base), secs, base, s, k)
  {
    DiffIsUnique(secs, base);
    OverrideSectionsLookup(Diff(secs, base), secs, base, s, k);
  }

  /** Every coupled key of a changed section that exists on either side is sent. */
  lemma CoupledKeysTravelTogether(secs: seq<Section>, base: seq<Section>, s: string, k: string)
    requires s in Names(Diff(secs, base)) && s != VERSION && k in CoupledKeys(s)
    ensures Find(Overrides(secs, base), s, k)
         == Or(Find(Diff(secs, base), s, k), Effective(secs, base, s, k))
  {
    OverridesLookup(secs, base, s, k);
  }

  /** The network settings are sent together: a change to any of them brings these along. */
  lemma NetworkTravelsWhole(secs: seq<Section>, base: seq<Section>, s: string, k: string)
    requires s in Names(Diff(secs, base))
    requires if s == "Network"
             then k in {"upnpFlag", "setDhcpHostName", "secondaryDns", "primaryDns", "httpProxyFlag", "howToSetupIp",
                        "etherMode", "enable", "dnsFlag", "dhcpHostName"}
             else s == "Network.eth2" && k in {"setDhcpHostName", "howToSetupIp"}
    ensures Find(secs, s, k).Some? || Find(base, s, k).Some? ==> Find(Overrides(secs, base), s, k).Some?
    ensures Find(Diff(secs, base), s, k).None? ==>
              Find(Overrides(secs, base), s, k) == Or(Find(secs, s, k), Find(base, s, k))
  {
    hide Find, Overrides, Diff, Names;
    CoupledKeysTravelTogether(secs, base, s, k);
  }

  // ---------- overrides repeat nothing and lead with the version ----------

  predicate Led(out: seq<Section>, lead: Section) {
    out != [] && out[0] == lead && Unique(out)
  }

  lemma {:induction false} ItemsKeepLead(out: seq<Section>, items: seq<Item>, lead: Section)
    requires Led(out, lead) && forall it :: it in items ==> it.section != lead.name
    ensures Led(PutItems(out, items), lead)
    decreases |items|
  {
    if items != [] {
      var it := items[|items| - 1];
      ItemsKeepLead(out, items[..|items| - 1], lead);
      SetKeepsUnique(PutItems(out, items[..|items| - 1]), it.section, it.key, it.value);
    }
  }

  lemma {:induction false} CoupleKeepsLead(out: seq<Section>, s: string, keys: seq<string>,
                                           secs: seq<Section>, base: seq<Section>, lead: Section)
    requires Led(out, lead) && s != lead.name
    ensures Led(Couple(out, s, keys, secs, base), lead)
    decreases |keys|
  {
    if keys != [] {
      var before := Couple(out, s, keys[..|keys| - 1], secs, base);
      CoupleKeepsLead(out, s, keys[..|keys| - 1], secs, base, lead);
      var k := keys[|keys| - 1];
      if Effective(secs, base, s, k).Some? {
        SetKeepsUnique(before, s, k, Effective(secs, base, s, k).value);
      }
    }
  }

  lemma {:induction false} SectionsKeepLead(out: seq<Section>, changed: seq<Section>,
                                            secs: seq<Section>, base: seq<Section>, lead: Section)
    requires Led(out, lead) && lead.name == VERSION
    ensures Led(OverrideSections(out, changed, secs, base), lead)
    decreases |changed|
  {
    if changed != [] {
      hide Led;
      var last := changed[|changed| - 1];
      var before := OverrideSections(out, changed[..|changed| - 1], secs, base);
      SectionsKeepLead(out, changed[..|changed| - 1], secs, base, lead);
      if last.name != VERSION {
        var items := ItemsOf(last.name, last.entries);
        ItemsKeepLead(before, items, lead);
        CoupleKeepsLead(PutItems(before, items), last.name, CoupledKeys(last.name), secs, base, lead);
      }
    }
  }

  /** The overrides are empty exactly when nothing changed; otherwise they open with a
    * section holding nothing but the baseline's version, or "1", and repeat nothing. */
  lemma OverridesShape(secs: seq<Section>, base: seq<Section>)
    ensures Overrides(secs, base) == [] <==> Diff(secs, base) == []
    ensures Diff(secs, base) != [] ==>
      Led(Overrides(secs, base), Section(VERSION, [Entry(VERSION_KEY, VersionValue(base))]))
      && Overrides(secs, base)[0] == Section("Version", [Entry("version", Or(Find(base, "Version", "version"), Some("1")).value)])
    ensures Unique(Overrides(secs, base))
  {
    var lead := Section(VERSION, [Entry(VERSION_KEY, VersionValue(base))]);
    if Diff(secs, base) != [] {
      SetKeepsUnique([], VERSION, VERSION_KEY, VersionValue(base));
      SectionsKeepLead([lead], Diff(secs, base), secs, base, lead);
    }
  }

  // ---------- overrides are a patch ----------

  /** What the console does with overrides: set each of their keys in turn. */
  function Patch(base: seq<Section>, overrides: seq<Section>): seq<Section> {
    PutItems(base, Items(overrides))
  }

  lemma {:induction false} UniqueLast(secs: seq<Section>, s: string, k: string)
    requires Unique(secs)
    ensures Last(Items(secs), s, k) == Find(secs, s, k)
    decreases |secs|
  {
    if secs != [] {
      var init := secs[..|secs| - 1];
      var last := secs[|secs| - 1];
      assert secs == init + [last];
      UniqueInit(init, last);
      UniqueLast(init, s, k);
      LastOfJoined(Items(init), ItemsOf(last.name, last.entries), s, k);
      LastOfEntries(last.name, last.entries, s, k);
      FindJoined(init, [last], s, k);
      assert Find([last], s, k) == if last.name == s then FindIn(last.entries, k) else None;
      if last.name == s {
        NotNamedNotFound(init, s, k);
      }
    }
  }

  lemma {:induction false} UnchangedAgrees(items: seq<Item>, base: seq<Section>, s: string, k: string)
    requires Last(Changed(items, base), s, k).None?
    ensures First(items, s, k).None? || First(items, s, k) == Find(base, s, k)
    decreases |items|
  {
    if items != [] {
      var init := items[..|items| - 1];
      var it := items[|items| - 1];
      if Differs(it, base) {
        LastOfJoined(Changed(init, base), [it], s, k);
        assert [it][..0] == [];
        assert Last([it], s, k) == if it.section == s && it.key == k then Some(it.value) else None;
      } else {
        assert Changed(init, base) + [] == Changed(init, base);
      }
      UnchangedAgrees(init, base, s, k);
    }
  }

  predicate IsFor(it: Item, s: string, k: string) {
    it.section == s && it.key == k
  }

  /** Item `j` is the last one of the key whose value is not the baseline's. */
  predicate IsLastChange(items: seq<Item>, base: seq<Section>, s: string, k: string, j: int) {
    && 0 <= j < |items| && IsFor(items[j], s, k) && Find(base, s, k) != Some(items[j].value)
    && forall m :: j < m < |items| && IsFor(items[m], s, k) ==> Find(base, s, k) == Some(items[m].value)
  }

  /** The last value among the items that differ is that of the last such item. */
  lemma {:induction false} LastChangeIs(items: seq<Item>, base: seq<Section>, s: string, k: string)
    ensures var last := Last(Changed(items, base), s, k);
      && (last.None? ==> forall j :: !IsLastChange(items, base, s, k, j))
      && (last.Some? ==> exists j :: IsLastChange(items, base, s, k, j))
      && (forall j :: IsLastChange(items, base, s, k, j) ==> last == Some(items[j].value))
    decreases |items|
  {
    if items != [] {
      var n := |items| - 1;
      var init, it := items[..n], items[n];
      LastChangeIs(init, base, s, k);
      if Differs(it, base) {
        LastOfJoined(Changed(init, base), [it], s, k);
        assert [it][..0] == [];
      } else {
        assert Changed(init, base) + [] == Changed(init, base);
      }
      LastChangeGrows(items, base, s, k);
      if IsFor(it, s, k) && Differs(it, base) {
        assert IsLastChange(items, base, s, k, n);
      } else if Last(Changed(init, base), s, k).Some? {
        var j :| IsLastChange(init, base, s, k, j);
        assert IsLastChange(items, base, s, k, j);
      }
    }
  }

  lemma LastChangeGrows(items: seq<Item>, base: seq<Section>, s: string, k: string)
    requires items != []
    ensures var n := |items| - 1;
      var takesOver := IsFor(items[n], s, k) && Find(base, s, k) != Some(items[n].value);
      forall j :: IsLastChange(items, base, s, k, j) <==>
        if takesOver then j == n else j < n && IsLastChange(items[..n], base, s, k, j)
  {
    var n := |items| - 1;
    forall j: int ensures IsLastChange(items, base, s, k, j) <==>
        if IsFor(items[n], s, k) && Find(base, s, k) != Some(items[n].value) then j == n
        else j < n && IsLastChange(items[..n], base, s, k, j) {
      if 0 <= j < n {
        assert forall m :: 0 <= m < n ==> items[..n][m] == items[m];
      }
    }
  }

  /** Outside the version section, patching the baseline with the overrides gives a key the
    * value these settings effectively have, if and only if the last entry of the key that
    * differs from the baseline, if there is one, has the value these settings look up. */
  lemma PatchIff(secs: seq<Section>, base: seq<Section>, s: string, k: string)
    requires s != VERSION
    ensures Find(Patch(base, Overrides(secs, base)), s, k) == Effective(secs, base, s, k)
      <==> forall j :: IsLastChange(Items(secs), base, s, k, j) ==> Find(secs, s, k) == Some(Items(secs)[j].value)
  {
    PatchIffDiff(secs, base, s, k);
    hide Overrides, Patch, Effective, Changed, Items, IsLastChange;
    LastChangeIs(Items(secs), base, s, k);
    FindAfterItems([], Changed(Items(secs), base), s, k);
    if Last(Changed(Items(secs), base), s, k).Some? {
      var j :| IsLastChange(Items(secs), base, s, k, j);
      AmongItems(Items(secs), base, s, k, j);
      assert Last(Changed(Items(secs), base), s, k) == Some(Items(secs)[j].value);
    }
  }

  lemma AmongItems(items: seq<Item>, base: seq<Section>, s: string, k: string, j: int)
    requires IsLastChange(items, base, s, k, j)
    ensures 0 <= j < |items|
  {
  }

  lemma PatchIffDiff(secs: seq<Section>, base: seq<Section>, s: string, k: string)
    requires s != VERSION
    ensures Find(Patch(base, Overrides(secs, base)), s, k) == Effective(secs, base, s, k)
      <==> (Find(Diff(secs, base), s, k).None? || Find(Diff(secs, base), s, k) == Find(secs, s, k))
  {
    var overrides := Overrides(secs, base);
    var changed := Changed(Items(secs), base);
    OverridesShape(secs, base);
    FindAfterItems(base, Items(overrides), s, k);
    UniqueLast(overrides, s, k);
    OverridesLookup(secs, base, s, k);
    FindAfterItems([], changed, s, k);
    FindIsFirst(secs, s, k);
    if Last(changed, s, k).None? {
      UnchangedAgrees(Items(secs), base, s, k);
    } else {
      ChangedWasThere(Items(secs), base, s, k);
    }
  }

  lemma {:induction false} ChangedWasThere(items: seq<Item>, base: seq<Section>, s: string, k: string)
    requires Last(Changed(items, base), s, k).Some?
    ensures First(items, s, k).Some?
    decreases |items|
  {
    var init := items[..|items| - 1];
    var it := items[|items| - 1];
    if !(it.section == s && it.key == k) {
      if Differs(it, base) {
        LastOfJoined(Changed(init, base), [it], s, k);
        assert [it][..0] == [];
      } else {
        assert Changed(init, base) + [] == Changed(init, base);
      }
      ChangedWasThere(init, base, s, k);
    }
  }

  /** Settings without repetitions: the overrides turn the baseline into these settings,
    * for every key outside the version section. */
  lemma OverridesPatchTheBaseline(secs: seq<Section>, base: seq<Section>, s: string, k: string)
    requires NoRepeats(Items(secs)) && s != VERSION
    ensures Find(Patch(base, Overrides(secs, base)), s, k) == Effective(secs, base, s, k)
  {
    DiffLookup(secs, base, s, k);
    PatchIffDiff(secs, base, s, k);
  }
}
