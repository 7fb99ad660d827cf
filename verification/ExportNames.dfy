/** Names of exported layers, files and archive entries. */
module ExportNames {
  import opened Ordering
  import Decimal
  import Sets

  datatype Layer = Layer(schema: string, table: string)

  /** The names tried for a layer, in order: the table, then with its schema, then numbered. */
  function Candidate(l: Layer, n: nat): string {
    if n == 0 then l.table
    else if n == 1 then l.schema + "_" + l.table
    else l.schema + "_" + l.table + "_" + Decimal.Digits(n)
  }

  /** The first of those names that is still free. */
  ghost predicate FirstFree(l: Layer, used: set<string>, name: string) {
    name !in used && exists n: nat :: IsFirst(l, used, name, n)
  }

  ghost predicate IsFirst(l: Layer, used: set<string>, name: string, n: nat) {
    n <= |used| && name == Candidate(l, n) && forall k: nat :: k < n ==> Candidate(l, k) in used
  }

  lemma {:induction false} FirstFreeUnique(l: Layer, used: set<string>, name: string, name': string)
    requires FirstFree(l, used, name) && FirstFree(l, used, name')
    ensures name == name'
  {
    var n: nat :| IsFirst(l, used, name, n);
    var n': nat :| IsFirst(l, used, name', n');
    assert !(n < n') && !(n' < n);
  }

  lemma {:induction false} CandidatesDiffer(l: Layer, m: nat, n: nat)
    requires 1 <= m < n
    ensures Candidate(l, m) != Candidate(l, n)
  {
    var base := l.schema + "_" + l.table;
    if m == 1 {
      assert |Candidate(l, n)| > |base|;
    } else if Candidate(l, m) == Candidate(l, n) {
      assert Candidate(l, m)[|base| + 1..] == Decimal.Digits(m);
      assert Candidate(l, n)[|base| + 1..] == Decimal.Digits(n);
      Decimal.DigitsInjective(m, n);
    }
  }

  function NumberedName(l: Layer, n: nat): string {
    l.schema + "_" + l.table + "_" + Decimal.Digits(n)
  }

  /** The loop ends because the numbered names are all different and only finitely many
      names are used. */
  method UniqueName(l: Layer, used: set<string>) returns (name: string, used': set<string>)
    ensures FirstFree(l, used, name) && used' == used + {name}
    ensures l.table !in used ==> name == l.table
    ensures l.table in used && l.schema + "_" + l.table !in used ==> name == l.schema + "_" + l.table
    ensures l.table in used && l.schema + "_" + l.table in used ==>
              exists n: nat :: n >= 2 && name == NumberedName(l, n) && forall k: nat :: 2 <= k < n ==> NumberedName(l, k) in used
  {
    hide Candidate;
    assert Candidate(l, 0) == l.table && Candidate(l, 1) == l.schema + "_" + l.table by { FirstTwo(l); }
    name := if l.table !in used then l.table else l.schema + "_" + l.table;
    if name == l.table && name !in used {
      assert IsFirst(l, used, name, 0);
      return name, used + {name};
    }
    var suffix := 1;
    ghost var tried: set<string> := {};
    while name in used
      invariant suffix >= 1 && name == Candidate(l, suffix) && Candidate(l, 0) in used
      invariant tried == set k: nat | 1 <= k < suffix :: Candidate(l, k)
      invariant |tried| == suffix - 1 && tried <= used
      decreases |used| - |tried|
    {
      TryNext(l, tried, suffix, used);
      tried := tried + {name};
      suffix := suffix + 1;
      name := l.schema + "_" + l.table + "_" + Decimal.Digits(suffix);
      assert name == Candidate(l, suffix) by { Numbered(l, suffix); }
    }
    assert suffix <= |used| by { RoomLeft(l, tried, suffix, used); }
    forall k: nat | k < suffix ensures Candidate(l, k) in used {
      if k >= 1 { assert Candidate(l, k) in tried; }
    }
    assert IsFirst(l, used, name, suffix);
    forall k: nat | 2 <= k < suffix ensures NumberedName(l, k) in used { Numbered(l, k); }
    if suffix >= 2 { Numbered(l, suffix); }
    used' := used + {name};
  }

  lemma {:induction false} FirstTwo(l: Layer)
    ensures Candidate(l, 0) == l.table && Candidate(l, 1) == l.schema + "_" + l.table
  {}

  lemma {:induction false} Numbered(l: Layer, n: nat)
    requires n >= 2
    ensures Candidate(l, n) == l.schema + "_" + l.table + "_" + Decimal.Digits(n) == NumberedName(l, n)
  {}

  lemma {:induction false} TryNext(l: Layer, tried: set<string>, suffix: nat, used: set<string>)
    requires suffix >= 1 && tried == set k: nat | 1 <= k < suffix :: Candidate(l, k)
    requires |tried| == suffix - 1 && tried <= used && Candidate(l, suffix) in used
    ensures tried + {Candidate(l, suffix)} == set k: nat | 1 <= k < suffix + 1 :: Candidate(l, k)
    ensures |tried + {Candidate(l, suffix)}| == suffix && tried + {Candidate(l, suffix)} <= used
    ensures |tried + {Candidate(l, suffix)}| <= |used|
  {
    hide Candidate;
    forall k: nat | 1 <= k < suffix ensures Candidate(l, k) != Candidate(l, suffix) {
      CandidatesDiffer(l, k, suffix);
    }
    Sets.SubsetSize(tried + {Candidate(l, suffix)}, used);
  }

  /** The unnumbered table name is used too, and it may be one of those tried. */
  lemma {:induction false} RoomLeft(l: Layer, tried: set<string>, suffix: nat, used: set<string>)
    requires suffix >= 1 && |tried| == suffix - 1 && tried <= used && Candidate(l, 0) in used
    requires tried == set k: nat | 1 <= k < suffix :: Candidate(l, k)
    ensures suffix <= |used|
  {
    forall k: nat | 1 <= k < suffix ensures |Candidate(l, k)| > |Candidate(l, 0)| {}
    assert Candidate(l, 0) !in tried;
    Sets.SubsetSize(tried + {Candidate(l, 0)}, used);
  }

  function Used(names: seq<string>): set<string> {
    set k | 0 <= k < |names| :: names[k]
  }

  /** The naming loop of an export, over any list of layers, repeats included. */
  method NameLayers(layers: seq<Layer>) returns (names: seq<string>)
    ensures |names| == |layers| && Distinct(names)
    ensures forall k :: 0 <= k < |layers| ==> FirstFree(layers[k], Used(names[..k]), names[k])
  {
    hide FirstFree, Used;
    names := [];
    var used: set<string> := {};
    assert Used([]) == {} by { NoneUsed(); }
    for n := 0 to |layers|
      invariant |names| == n && used == Used(names) && Distinct(names)
      invariant forall k :: 0 <= k < n ==> FirstFree(layers[k], Used(names[..k]), names[k])
    {
      var name, used' := UniqueName(layers[n], used);
      UsedMore(layers[n], names, name);
      assert forall k :: 0 <= k < n ==> (names + [name])[..k] == names[..k];
      assert (names + [name])[..n] == names;
      names, used := names + [name], used';
    }
  }

  lemma {:induction false} NoneUsed()
    ensures Used([]) == {}
  {}

  lemma {:induction false} UsedMore(l: Layer, names: seq<string>, name: string)
    requires FirstFree(l, Used(names), name) && Distinct(names)
    ensures Used(names + [name]) == Used(names) + {name} && Distinct(names + [name])
  {
    assert forall k :: 0 <= k < |names| ==> (names + [name])[k] == names[k] && names[k] in Used(names);
    assert (names + [name])[|names|] == name;
  }

  /** One file per layer, named after it, unless the format holds all layers in one. */
  method OutputFiles(layers: seq<Layer>, format: string, extension: string)
    returns (names: seq<string>, files: seq<string>)
    ensures |names| == |layers| && Distinct(names) && Distinct(files)
    ensures if format == "gpkg" then files == ["export.gpkg"]
            else |files| == |layers| && forall k :: 0 <= k < |files| ==> files[k] == names[k] + "." + extension
  {
    hide FirstFree;
    names := NameLayers(layers);
    if format == "gpkg" {
      files := ["export.gpkg"];
    } else {
      files := [];
      for k := 0 to |names|
        invariant |files| == k && forall j :: 0 <= j < k ==> files[j] == names[j] + "." + extension
      {
        files := files + [names[k] + "." + extension];
      }
      forall i, j | 0 <= i < j < |files| ensures files[i] != files[j] {
        SuffixKeepsApart(names[i], names[j], "." + extension);
        assert names[i] + "." + extension == names[i] + ("." + extension);
        assert names[j] + "." + extension == names[j] + ("." + extension);
      }
    }
  }

  lemma {:induction false} SuffixKeepsApart(a: string, b: string, suffix: string)
    requires a != b
    ensures a + suffix != b + suffix
  {
    assert (a + suffix)[..|a + suffix| - |suffix|] == a && (b + suffix)[..|b + suffix| - |suffix|] == b;
  }
}
