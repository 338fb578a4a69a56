/** The settings object: the loops of the program, each proved to compute the function
  * that SftText and SftEdits reason about.
  */
module SftSettings {
  import opened BeIo
  import opened Wrappers
  import opened SftText
  import opened SftEdits

  class Settings {
    var sections: seq<Section>

    constructor ()
      ensures sections == []
    {
      sections := [];
    }

    static method ParseData(data: seq<byte>) returns (out: Settings)
      ensures fresh(out) && out.sections == Parse(data)
    {
      hide Classify;
      out := new Settings();
      var lines := SplitLines(FromLatin1(data));
      for i := 0 to |lines|
        invariant out.sections == ReadLines([], lines[..i])
      {
        assert lines[..i + 1][..i] == lines[..i];
        match Classify(lines[i])
        case Skip =>
        case Header(name) =>
          out.sections := out.sections + [Section(name, [])];
        case Pair(key, value) =>
          if out.sections == [] {
            out.sections := [Section("", [])];
          }
          var last := |out.sections| - 1;
          var s := out.sections[last];
          assert s.entries == [] ==> s.entries + [Entry(key, value)] == [Entry(key, value)];
          out.sections := out.sections[last := s.(entries := s.entries + [Entry(key, value)])];
      }
      assert lines[..|lines|] == lines;
    }

    method SerialiseData() returns (data: seq<byte>)
      ensures data == Serialise(sections)
    {
      hide Terminate;
      ghost var lines := [""];
      var text := "\r\n";
      TerminateOne([], "");
      for i := 0 to |sections|
        invariant lines == Lines(sections[..i]) && text == Terminate(lines)
      {
        assert sections[..i + 1][..i] == sections[..i];
        var s := sections[i];
        TerminateOne(lines, HeaderText(s.name));
        text := text + (HeaderText(s.name) + "\r\n");
        lines := lines + [HeaderText(s.name)];
        ghost var before := lines;
        for j := 0 to |s.entries|
          invariant lines == before + EntryLines(s.entries[..j]) && text == Terminate(lines)
        {
          var e := s.entries[j];
          TerminateOne(lines, EntryText(e));
          assert EntryLines(s.entries[..j + 1]) == EntryLines(s.entries[..j]) + [EntryText(e)];
          text := text + (EntryText(e) + "\r\n");
          lines := lines + [EntryText(e)];
        }
        assert s.entries[..|s.entries|] == s.entries;
        TerminateOne(lines, "");
        text := text + "\r\n";
        lines := lines + [""];
      }
      assert sections[..|sections|] == sections;
      return ToLatin1(text);
    }

    method FindEntry(sec: string, key: string) returns (r: Option<string>)
      ensures r == Find(sections, sec, key)
    {
      for i := 0 to |sections|
        invariant Find(sections, sec, key) == Find(sections[i..], sec, key)
      {
        assert sections[i..][1..] == sections[i + 1..];
        var s := sections[i];
        if s.name == sec {
          for j := 0 to |s.entries|
            invariant FindIn(s.entries, key) == FindIn(s.entries[j..], key)
          {
            assert s.entries[j..][1..] == s.entries[j + 1..];
            if s.entries[j].key == key {
              return Some(s.entries[j].value);
            }
          }
        }
      }
      return None;
    }

    method Value(sec: string, key: string) returns (v: string)
      ensures v == Or(Find(sections, sec, key), Some("")).value
    {
      var e := FindEntry(sec, key);
      return if e.Some? then e.value else "";
    }

    method Contains(sec: string, key: string) returns (b: bool)
      ensures b <==> Find(sections, sec, key).Some?
    {
      var e := FindEntry(sec, key);
      return e.Some?;
    }

    method Set(sec: string, key: string, val: string)
      modifies this
      ensures sections == Put(old(sections), sec, key, val)
    {
      hide Put, PutIn;
      for i := 0 to |sections|
        invariant sections == old(sections)
        invariant forall k :: 0 <= k < i ==> sections[k].name != sec
      {
        var s := sections[i];
        if s.name == sec {
          PutAt(sections, sec, key, val, i);
          var es := SetEntry(s.entries, key, val);
          sections := sections[i := s.(entries := es)];
          return;
        }
      }
      PutLast(sections, sec, key, val);
      sections := sections + [Section(sec, [Entry(key, val)])];
    }

    /** The inner loop: overwrite the first entry of that key, or append one. */
    static method SetEntry(entries: seq<Entry>, key: string, val: string) returns (es: seq<Entry>)
      ensures es == PutIn(entries, key, val)
    {
      hide PutIn;
      for j := 0 to |entries|
        invariant forall k :: 0 <= k < j ==> entries[k].key != key
      {
        if entries[j].key == key {
          PutInAt(entries, key, val, j);
          return entries[j := Entry(key, val)];
        }
      }
      PutInLast(entries, key, val);
      return entries + [Entry(key, val)];
    }

    method DiffAgainst(baseline: Settings) returns (out: Settings)
      ensures fresh(out) && out.sections == Diff(sections, baseline.sections)
    {
      hide Put, Find, PutItems, Changed;
      out := new Settings();
      var base := baseline.sections;
      ghost var items := [];
      NoItemsYet(base);
      for i := 0 to |sections|
        invariant fresh(out) && items == Items(sections[..i])
        invariant out.sections == PutItems([], Changed(items, base))
      {
        assert sections[..i + 1][..i] == sections[..i];
        var s := sections[i];
        ghost var before := items;
        for j := 0 to |s.entries|
          invariant fresh(out) && items == before + ItemsOf(s.name, s.entries[..j])
          invariant out.sections == PutItems([], Changed(items, base))
        {
          var e := s.entries[j];
          ghost var it := Item(s.name, e.key, e.value);
          assert ItemsOf(s.name, s.entries[..j + 1]) == ItemsOf(s.name, s.entries[..j]) + [it];
          OneMoreItem(items, it, base);
          items := items + [it];
          var known := baseline.Contains(s.name, e.key);
          var v := baseline.Value(s.name, e.key);
          if known && v == e.value {
            continue;
          }
          out.Set(s.name, e.key, e.value);
        }
        assert s.entries[..|s.entries|] == s.entries;
      }
      assert sections[..|sections|] == sections;
    }

    method OverridesAgainst(baseline: Settings) returns (out: Settings)
      ensures fresh(out) && out.sections == Overrides(sections, baseline.sections)
    {
      hide Put, Find;
      var changed := DiffAgainst(baseline);
      if changed.sections == [] {
        return changed;
      }
      out := new Settings();
      var base := baseline.sections;
      var known := baseline.Contains(VERSION, VERSION_KEY);
      var version := baseline.Value(VERSION, VERSION_KEY);
      out.Set(VERSION, VERSION_KEY, if known then version else "1");
      ghost var first := out.sections;
      for i := 0 to |changed.sections|
        invariant fresh(out) && fresh(changed) && out != changed
        invariant changed.sections == Diff(sections, base)
        invariant out.sections == OverrideSections(first, changed.sections[..i], sections, base)
      {
        assert changed.sections[..i + 1][..i] == changed.sections[..i];
        var s := changed.sections[i];
        if s.name == VERSION {
          continue;
        }
        SetAll(out, s.name, s.entries);
        CoupleAll(out, s.name, baseline);
      }
      assert changed.sections[..|changed.sections|] == changed.sections;
    }

    /** The inner loop that copies the changed entries. */
    static method SetAll(out: Settings, name: string, es: seq<Entry>)
      modifies out
      ensures out.sections == PutItems(old(out.sections), ItemsOf(name, es))
    {
      hide Put;
      for j := 0 to |es|
        invariant out.sections == PutItems(old(out.sections), ItemsOf(name, es[..j]))
      {
        var e := es[j];
        assert ItemsOf(name, es[..j + 1])[..j] == ItemsOf(name, es[..j]);
        out.Set(name, e.key, e.value);
      }
      assert es[..|es|] == es;
    }

    /** The inner loop that fills in the coupled keys. */
    method CoupleAll(out: Settings, name: string, baseline: Settings)
      requires out != this && out != baseline
      modifies out
      ensures out.sections == Couple(old(out.sections), name, CoupledKeys(name), sections, baseline.sections)
    {
      hide Put, Find, CoupledKeys;
      var keys := CoupledKeys(name);
      for j := 0 to |keys|
        invariant out.sections == Couple(old(out.sections), name, keys[..j], sections, baseline.sections)
      {
        var k := keys[j];
        assert keys[..j + 1][..j] == keys[..j];
        var there := out.Contains(name, k);
        if there {
          continue;
        }
        var mine := Contains(name, k);
        var theirs := baseline.Contains(name, k);
        if mine {
          var v := Value(name, k);
          out.Set(name, k, v);
        } else if theirs {
          var v := baseline.Value(name, k);
          out.Set(name, k, v);
        }
      }
      assert keys[..|keys|] == keys;
    }
  }

  lemma TerminateOne(lines: seq<string>, l: string)
    ensures Terminate(lines + [l]) == Terminate(lines) + (l + "\r\n")
    ensures Terminate([""]) == "\r\n"
  {
    assert (lines + [l])[..|lines|] == lines;
    assert [""][..0] == [];
    assert "" + "\r\n" == "\r\n";
  }

  lemma {:induction false} PutAt(secs: seq<Section>, sec: string, key: string, val: string, i: nat)
    requires i < |secs| && secs[i].name == sec && forall k :: 0 <= k < i ==> secs[k].name != sec
    ensures Put(secs, sec, key, val) == secs[i := secs[i].(entries := PutIn(secs[i].entries, key, val))]
  {
    hide PutIn;
    if i > 0 {
      PutAt(secs[1..], sec, key, val, i - 1);
    }
  }

  lemma {:induction false} PutLast(secs: seq<Section>, sec: string, key: string, val: string)
    requires forall k :: 0 <= k < |secs| ==> secs[k].name != sec
    ensures Put(secs, sec, key, val) == secs + [Section(sec, [Entry(key, val)])]
  {
    hide PutIn;
    if secs != [] {
      PutLast(secs[1..], sec, key, val);
    }
  }

  lemma {:induction false} PutInAt(es: seq<Entry>, key: string, val: string, j: nat)
    requires j < |es| && es[j].key == key && forall k :: 0 <= k < j ==> es[k].key != key
    ensures PutIn(es, key, val) == es[j := Entry(key, val)]
  {
    if j > 0 {
      PutInAt(es[1..], key, val, j - 1);
    }
  }

  lemma {:induction false} PutInLast(es: seq<Entry>, key: string, val: string)
    requires forall k :: 0 <= k < |es| ==> es[k].key != key
    ensures PutIn(es, key, val) == es + [Entry(key, val)]
  {
    if es != [] {
      PutInLast(es[1..], key, val);
    }
  }

  lemma NoItemsYet(base: seq<Section>)
    ensures PutItems([], Changed([], base)) == []
  {
  }

  lemma OneMoreItem(items: seq<Item>, it: Item, base: seq<Section>)
    ensures PutItems([], Changed(items + [it], base))
         == if Differs(it, base) then Put(PutItems([], Changed(items, base)), it.section, it.key, it.value)
            else PutItems([], Changed(items, base))
  {
    assert (items + [it])[..|items|] == items;
    var c := Changed(items, base);
    assert (c + [it])[..|c|] == c;
    assert c + [] == c;
  }
}
