/**
  The argument parser handed to plugin commands (plugin/cmd_args.go): the text after the
  command name is cut at every space, and each word is read as a `--long` option, a `-short`
  option cluster or a bare argument.
*/
module CmdArgsModel {
  import opened Wrappers
  import opened Paths

  /** A value of the argument map: a word (Go `string`) or the flag `true`. */
  datatype ArgValue = Str(s: string) | Flag

  // ---------------------------------------------------------------------------------------
  // The parse as written
  // ---------------------------------------------------------------------------------------

  /**
    Word `j` makes `Parse` index past the end of a string: a lone `-` (it reads the second
    character), or an option followed by an empty word (it reads that word's first character).
  */
  predicate PanicsAt(parts: seq<string>, j: nat)
    requires j < |parts|
  {
    var part := Trim(parts[j], ' ');
    |part| > 0 && part[0] == '-' && (|part| == 1 || (j < |parts| - 1 && |parts[j + 1]| == 0))
  }

  /** Every character of `key`, as a one-character key, set to `true`. */
  function AddRunes(m: map<string, ArgValue>, key: string): map<string, ArgValue>
    decreases |key|
  {
    if key == [] then m else AddRunes(m[[key[0]] := Flag], key[1..])
  }

  /**
    The effect of word `i` on the map, or `None` for a panic. An option's following word is
    stored under its key and at once overwritten with `true`, so only `true` remains.
  */
  function StepSpec(m: map<string, ArgValue>, parts: seq<string>, i: nat): Option<map<string, ArgValue>>
    requires i < |parts|
  {
    var part := Trim(parts[i], ' ');
    if |part| == 0 then Some(m)
    else if PanicsAt(parts, i) then None
    else if part[0] == '-' then
      var key := Trim(part, '-');
      if part[1] == '-' then Some(m[key := Flag]) else Some(AddRunes(m[key := Flag], key))
    else Some(m["raw" := Str(part)])
  }

  /** The map after the first `n` words, or `None` if one of them panics. */
  function ParseUpTo(parts: seq<string>, n: nat): Option<map<string, ArgValue>>
    requires n <= |parts|
  {
    if n == 0 then Some(map[])
    else match ParseUpTo(parts, n - 1)
      case None => None
      case Some(m) => StepSpec(m, parts, n - 1)
  }

  /** What `Parse` makes of the raw argument text. */
  function ParseArgs(raw: string): Option<map<string, ArgValue>>
  {
    var parts := Split(raw, ' ');
    ParseUpTo(parts, |parts|)
  }

  class CmdArgs {
    var rawArgs: string
    var argMap: map<string, ArgValue>

    /** `CmdArgs{RawArgs: raw}`: nothing parsed yet (a nil map, which reads as empty). */
    constructor (raw: string)
      ensures rawArgs == raw && argMap == map[]
    {
      rawArgs := raw;
      argMap := map[];
    }

    /**
      `Parse()`: rebuilds the argument map from `rawArgs`. `panicked` reports the index out of
      range that a lone `-` or an option followed by an empty word causes.
    */
    method Parse() returns (panicked: bool)
      modifies this
      ensures rawArgs == old(rawArgs)
      ensures panicked <==> ParseArgs(rawArgs).None?
      ensures !panicked ==> argMap == ParseArgs(rawArgs).value
    {
      argMap := map[];
      var parts := Split(rawArgs, ' ');
      var i := 0;
      while i < |parts|
        invariant 0 <= i <= |parts|
        invariant rawArgs == old(rawArgs)
        invariant ParseUpTo(parts, i) == Some(argMap)
      {
        ghost var prev := argMap;
        var part := Trim(parts[i], ' ');
        if |part| == 0 {
          i := i + 1;
          continue;
        }
        if part[0] == '-' && |part| < 2 {
          assert PanicsAt(parts, i);
          ParsePanicsIff(parts, |parts|);
          return true;
        }
        if part[0] == '-' {
          var key := Trim(part, '-');
          if i < |parts| - 1 && |parts[i + 1]| == 0 {
            assert PanicsAt(parts, i);
            ParsePanicsIff(parts, |parts|);
            return true;
          }
          if i < |parts| - 1 && parts[i + 1][0] != '-' {
            argMap := argMap[key := Str(parts[i + 1])];
          }
          argMap := argMap[key := Flag];
          assert argMap == prev[key := Flag];
          if part[1] != '-' {
            ghost var before := argMap;
            var j := 0;
            while j < |key|
              invariant 0 <= j <= |key|
              invariant rawArgs == old(rawArgs)
              invariant AddRunes(argMap, key[j..]) == AddRunes(before, key)
            {
              assert key[j..][1..] == key[j + 1..];
              argMap := argMap[[key[j]] := Flag];
              j := j + 1;
            }
            assert key[|key|..] == [];
          }
        } else {
          argMap := argMap["raw" := Str(part)];
        }
        i := i + 1;
      }
      return false;
    }

    /** `Get(key)`: the value under `key`, or nil (`None`) when there is none. */
    function Get(key: string): (r: Option<ArgValue>)
      reads this
      ensures r.Some? <==> key in argMap
      ensures r.Some? ==> r.value == argMap[key]
    {
      if key in argMap then Some(argMap[key]) else None
    }

    /** `ForEach(callback)`: every entry of the map, once each, in the map's unspecified order. */
    method ForEach() returns (calls: seq<(string, ArgValue)>)
      ensures |calls| == |argMap|
      ensures forall i :: 0 <= i < |calls| ==> calls[i].0 in argMap && calls[i].1 == argMap[calls[i].0]
      ensures forall k :: k in argMap ==> exists i :: 0 <= i < |calls| && calls[i].0 == k
      ensures forall i, j :: 0 <= i < j < |calls| ==> calls[i].0 != calls[j].0
    {
      var m := argMap;
      var remaining := m.Keys;
      calls := [];
      ghost var pos: map<string, nat> := map[];
      while remaining != {}
        invariant remaining <= m.Keys
        invariant forall i :: 0 <= i < |calls| ==> calls[i].0 in m && calls[i].1 == m[calls[i].0]
        invariant forall k :: k in m && k !in remaining ==> k in pos && pos[k] < |calls| && calls[pos[k]].0 == k
        invariant forall i :: 0 <= i < |calls| ==> calls[i].0 !in remaining
        invariant forall i, j :: 0 <= i < j < |calls| ==> calls[i].0 != calls[j].0
        invariant |calls| + |remaining| == |m.Keys|
        decreases remaining
      {
        var k :| k in remaining;
        pos := pos[k := |calls|];
        calls := calls + [(k, m[k])];
        remaining := remaining - {k};
      }
      forall k | k in m ensures exists i :: 0 <= i < |calls| && calls[i].0 == k {
        assert calls[pos[k]].0 == k;
      }
      assert |m.Keys| == |m|;
    }
  }

  // ---------------------------------------------------------------------------------------
  // Properties of the parse
  // ---------------------------------------------------------------------------------------

  /** The keys `AddRunes` adds are the one-character strings of the key's characters, all `true`. */
  lemma {:induction false} AddRunesKeys(m: map<string, ArgValue>, key: string)
    ensures forall k :: k in AddRunes(m, key) <==> k in m || (|k| == 1 && k[0] in key)
    ensures forall k :: k in AddRunes(m, key) ==>
      AddRunes(m, key)[k] == if |k| == 1 && k[0] in key then Flag else m[k]
    decreases |key|
  {
    if key != [] {
      AddRunesKeys(m[[key[0]] := Flag], key[1..]);
      forall k | |k| == 1 ensures (k[0] in key <==> k == [key[0]] || k[0] in key[1..]) {
        if k[0] in key && k != [key[0]] {
          assert k == [k[0]];
          var i :| 0 <= i < |key| && key[i] == k[0];
          assert i != 0;
          assert key[1..][i - 1] == k[0];
        }
      }
    }
  }

  /** Word `j` is a non-empty word that is not an option. */
  predicate IsBare(parts: seq<string>, j: nat)
    requires j < |parts|
  {
    var part := Trim(parts[j], ' ');
    |part| > 0 && part[0] != '-'
  }

  /**
    `k` is a key that some word among the first `n` sets: an option's key with its dashes
    trimmed, a character of a single-dash option, or `raw` for a bare word.
  */
  ghost predicate SetsKey(parts: seq<string>, n: nat, k: string)
    requires n <= |parts|
  {
    exists j :: 0 <= j < n && SetsKeyAt(parts, j, k)
  }

  ghost predicate SetsKeyAt(parts: seq<string>, j: nat, k: string)
    requires j < |parts|
  {
    var part := Trim(parts[j], ' ');
    || (|part| > 1 && part[0] == '-' &&
        (k == Trim(part, '-') || (part[1] != '-' && |k| == 1 && k[0] in Trim(part, '-'))))
    || (IsBare(parts, j) && k == "raw")
  }

  /** The parse panics exactly when some word makes it panic. */
  lemma {:induction false} ParsePanicsIff(parts: seq<string>, n: nat)
    requires n <= |parts|
    ensures ParseUpTo(parts, n).None? <==> exists j :: 0 <= j < n && PanicsAt(parts, j)
  {
    if n > 0 {
      ParsePanicsIff(parts, n - 1);
      if ParseUpTo(parts, n - 1).Some? && PanicsAt(parts, n - 1) {
        assert ParseUpTo(parts, n).None?;
      }
    }
  }

  /**
    The keys of a parse are exactly the keys its words set; every value is `true` but that of
    `raw`, which can hold a bare word.
  */
  lemma {:induction false} ParseKeys(parts: seq<string>, n: nat)
    requires n <= |parts| && ParseUpTo(parts, n).Some?
    ensures var m := ParseUpTo(parts, n).value;
      && (forall k :: k in m <==> SetsKey(parts, n, k))
      && (forall k :: k in m && k != "raw" ==> m[k] == Flag)
  {
    if n > 0 {
      var m := ParseUpTo(parts, n - 1).value;
      ParseKeys(parts, n - 1);
      var part := Trim(parts[n - 1], ' ');
      if |part| > 0 && part[0] == '-' {
        AddRunesKeys(m[Trim(part, '-') := Flag], Trim(part, '-'));
      }
      var m' := ParseUpTo(parts, n).value;
      forall k ensures k in m' <==> SetsKey(parts, n, k) {
        if SetsKey(parts, n, k) {
          var j :| 0 <= j < n && SetsKeyAt(parts, j, k);
          if j < n - 1 {
            assert SetsKey(parts, n - 1, k);
          }
        }
        if k in m' && !(k in m) {
          assert SetsKeyAt(parts, n - 1, k);
        }
      }
    }
  }

  /**
    When `raw` holds a word, that word is the last bare word: no later word is bare, and no
    later option resets `raw` to `true`.
  */
  lemma {:induction false} ParseRawIsLastBare(parts: seq<string>, n: nat)
    requires n <= |parts| && ParseUpTo(parts, n).Some?
    requires "raw" in ParseUpTo(parts, n).value && ParseUpTo(parts, n).value["raw"].Str?
    ensures exists j :: (0 <= j < n && IsBare(parts, j) &&
      ParseUpTo(parts, n).value["raw"] == Str(Trim(parts[j], ' ')) &&
      (forall l :: j < l < n ==> !IsBare(parts, l)))
  {
    var m := ParseUpTo(parts, n - 1).value;
    if !IsBare(parts, n - 1) {
      StepKeepsRaw(m, parts, n - 1);
      ParseRawIsLastBare(parts, n - 1);
    }
  }

  /** A word that is not bare leaves a word stored under `raw` where it was. */
  lemma StepKeepsRaw(m: map<string, ArgValue>, parts: seq<string>, i: nat)
    requires i < |parts| && !IsBare(parts, i)
    requires StepSpec(m, parts, i).Some?
    requires "raw" in StepSpec(m, parts, i).value && StepSpec(m, parts, i).value["raw"].Str?
    ensures "raw" in m && m["raw"] == StepSpec(m, parts, i).value["raw"]
  {
    var part := Trim(parts[i], ' ');
    if |part| > 0 {
      var key := Trim(part, '-');
      AddRunesKeys(m[key := Flag], key);
    }
  }

  /**
    The converse: a bare word that no later word overrides (with a bare word of its own, or an
    option whose key is `raw`) is the value under `raw`.
  */
  lemma {:induction false} ParseRawHoldsLastBare(parts: seq<string>, n: nat, j: nat)
    requires j < n <= |parts| && ParseUpTo(parts, n).Some?
    requires IsBare(parts, j)
    requires forall l :: j < l < n ==> !SetsKeyAt(parts, l, "raw")
    ensures "raw" in ParseUpTo(parts, n).value
    ensures ParseUpTo(parts, n).value["raw"] == Str(Trim(parts[j], ' '))
  {
    if n > j + 1 {
      ParseRawHoldsLastBare(parts, n - 1, j);
      StepPreservesRaw(ParseUpTo(parts, n - 1).value, parts, n - 1);
    }
  }

  /** A word that does not set `raw` leaves the value under `raw` as it was. */
  lemma StepPreservesRaw(m: map<string, ArgValue>, parts: seq<string>, i: nat)
    requires i < |parts| && !SetsKeyAt(parts, i, "raw")
    requires StepSpec(m, parts, i).Some? && "raw" in m
    ensures "raw" in StepSpec(m, parts, i).value && StepSpec(m, parts, i).value["raw"] == m["raw"]
  {
    var part := Trim(parts[i], ' ');
    if |part| > 0 && part[0] == '-' {
      var key := Trim(part, '-');
      AddRunesKeys(m[key := Flag], key);
    }
  }

  /** Two words without spaces, joined by one space, split back into the two words. */
  lemma SplitTwoWords(a: string, b: string)
    requires ' ' !in a && ' ' !in b
    ensures Split(a + " " + b, ' ') == [a, b]
  {
    SplitNoSep(b, ' ');
    SplitLeadingSep(b, ' ');
    assert " " + b == [' '] + b;
    SplitPrefix(a, " " + b, ' ');
    assert a + " " + b == a + (" " + b);
    assert a + "" == a;
  }

  /** A short option cluster sets its whole key and each of its letters; the bare word is `raw`. */
  lemma ParseShortCluster()
    ensures ParseArgs("-la /tmp") == Some(map["la" := Flag, "l" := Flag, "a" := Flag, "raw" := Str("/tmp")])
  {
    var parts := ["-la", "/tmp"];
    assert "-la /tmp" == "-la" + " " + "/tmp";
    SplitTwoWords("-la", "/tmp");
    TrimAbsent("-la", ' ');
    TrimAbsent("/tmp", ' ');
    assert Trim("-la", '-') == "la";
    var m1 := map["la" := Flag, "l" := Flag, "a" := Flag];
    assert AddRunes(map["la" := Flag], "la") == m1;
    assert StepSpec(map[], parts, 0) == Some(m1);
    assert ParseUpTo(parts, 1) == Some(m1);
    assert StepSpec(m1, parts, 1) == Some(m1["raw" := Str("/tmp")]);
  }

  /**
    The word after a long option is not kept as its value: `--name value` sets `name` to
    `true`, and `value`, read again as a bare word, becomes `raw`.
  */
  lemma ParseDropsOptionValue()
    ensures ParseArgs("--name value") == Some(map["name" := Flag, "raw" := Str("value")])
  {
    var parts := ["--name", "value"];
    assert "--name value" == "--name" + " " + "value";
    SplitTwoWords("--name", "value");
    TrimAbsent("--name", ' ');
    TrimAbsent("value", ' ');
    assert Trim("--name", '-') == "name";
    assert StepSpec(map[], parts, 0) == Some(map["name" := Flag]);
    assert ParseUpTo(parts, 1) == Some(map["name" := Flag]);
    assert StepSpec(map["name" := Flag], parts, 1) == Some(map["name" := Flag, "raw" := Str("value")]);
  }

  // ---------------------------------------------------------------------------------------
  // The parse without the out-of-range reads
  // ---------------------------------------------------------------------------------------

  /**
    The panic of the word `-l ` as written: the trailing space leaves an empty word after the
    option, whose first character `Parse` reads.
  */
  lemma TrailingSpacePanics()
    ensures ParseArgs("-l ") == None
  {
    assert "-l " == "-l" + " " + "";
    SplitTwoWords("-l", "");
    TrimAbsent("-l", ' ');
    assert PanicsAt(["-l", ""], 0);
    assert ParseUpTo(["-l", ""], 1) == None;
  }

  /**
    Word `i` with the two reads guarded: a lone `-` is a bare word, and an empty next word is
    no value.
  */
  function StepFixed(m: map<string, ArgValue>, parts: seq<string>, i: nat): map<string, ArgValue>
    requires i < |parts|
  {
    var part := Trim(parts[i], ' ');
    if |part| == 0 then m
    else if part[0] == '-' && |part| > 1 then
      var key := Trim(part, '-');
      if part[1] == '-' then m[key := Flag] else AddRunes(m[key := Flag], key)
    else m["raw" := Str(part)]
  }

  /** The guarded parse of the first `n` words: it always produces a map. */
  function ParseFixed(parts: seq<string>, n: nat): map<string, ArgValue>
    requires n <= |parts|
  {
    if n == 0 then map[] else StepFixed(ParseFixed(parts, n - 1), parts, n - 1)
  }

  /**
    The guarded parse never fails, and wherever the parse as written does not panic the two
    produce the same map.
  */
  lemma {:induction false} ParseFixedAgrees(parts: seq<string>, n: nat)
    requires n <= |parts|
    ensures ParseUpTo(parts, n).Some? ==> ParseUpTo(parts, n).value == ParseFixed(parts, n)
  {
    if n > 0 {
      ParseFixedAgrees(parts, n - 1);
    }
  }

  /** On `-l `, the guarded parse sets `l` as the cluster it is. */
  lemma TrailingSpaceFixed()
    ensures ParseFixed(["-l", ""], 2) == map["l" := Flag]
  {
    TrimAbsent("-l", ' ');
    assert Trim("-l", '-') == "l";
    assert AddRunes(map["l" := Flag], "l") == map["l" := Flag];
  }
}
