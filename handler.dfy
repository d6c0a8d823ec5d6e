/** The LoRA preparation at the start of `handler` in `serverless.py`: every
    requested LoRA is installed if needed, its name without extension is
    added once to the process-wide list of loaded LoRA names, and the
    per-job selection and weights are collected in request order. */
module Handler {
  import opened Wrappers
  import Paths
  import FileSystem
  import LoraManager

  /** A `JobInputModel`: the file name, where to download it, its weight. */
  datatype LoraModel = LoraModel(name: string, source: string, weight: Option<real>)

  predicate NoDuplicates(names: seq<string>)
  {
    forall i, j :: 0 <= i < j < |names| ==> names[i] != names[j]
  }

  /** The name a LoRA is known by: its file name without the extension. */
  function LoraName(m: LoraModel): string
  {
    Paths.StripExtension(m.name)
  }

  /** The loaded-names list after the first `|loras|` iterations: each name
      is appended unless already present. */
  function LoadedNames(names: seq<string>, loras: seq<LoraModel>): seq<string>
    decreases |loras|
  {
    if |loras| == 0 then names
    else
      var before := LoadedNames(names, loras[..|loras| - 1]);
      var n := LoraName(loras[|loras| - 1]);
      if n in before then before else before + [n]
  }

  /** `selected_loras`: one name per requested LoRA, in request order. */
  function SelectedNames(loras: seq<LoraModel>): (r: seq<string>)
    ensures |r| == |loras| && forall i :: 0 <= i < |loras| ==> r[i] == LoraName(loras[i])
  {
    seq(|loras|, i requires 0 <= i < |loras| => LoraName(loras[i]))
  }

  /** `lora_values`: one weight per requested LoRA, in request order. */
  function Weights(loras: seq<LoraModel>): (r: seq<Option<real>>)
    ensures |r| == |loras| && forall i :: 0 <= i < |loras| ==> r[i] == loras[i].weight
  {
    seq(|loras|, i requires 0 <= i < |loras| => loras[i].weight)
  }

  /** The loaded-names list only grows at its end, never gains a duplicate,
      and holds exactly the names it held before plus every selected name. */
  lemma {:induction false} LoadedNamesProps(names: seq<string>, loras: seq<LoraModel>)
    ensures names <= LoadedNames(names, loras)
    ensures NoDuplicates(names) ==> NoDuplicates(LoadedNames(names, loras))
    ensures forall n :: n in LoadedNames(names, loras) <==> n in names || n in SelectedNames(loras)
    decreases |loras|
  {
    if |loras| > 0 {
      var k := |loras| - 1;
      var prefix := loras[..k];
      LoadedNamesProps(names, prefix);
      var before, n := LoadedNames(names, prefix), LoraName(loras[k]);
      assert loras[..k + 1] == loras;
      SelectionStep(loras, k);
      if n !in before {
        AppendFresh(before, n);
      }
    }
  }

  lemma AppendFresh(names: seq<string>, n: string)
    requires n !in names
    ensures NoDuplicates(names) ==> NoDuplicates(names + [n])
  {
  }

  /** A name is appended only when it is new: requesting a LoRA whose name
      is already loaded leaves the list as it is. */
  lemma {:induction false} LoadedNamesKnown(names: seq<string>, loras: seq<LoraModel>)
    requires forall i :: 0 <= i < |loras| ==> LoraName(loras[i]) in names
    ensures LoadedNames(names, loras) == names
    decreases |loras|
  {
    if |loras| > 0 {
      LoadedNamesKnown(names, loras[..|loras| - 1]);
    }
  }

  /** The paths the requested LoRAs are installed at. */
  function Targets(loraDir: string, loras: seq<LoraModel>): set<string>
    decreases |loras|
  {
    if |loras| == 0 then {}
    else Targets(loraDir, loras[..|loras| - 1]) + {Paths.Join(loraDir, loras[|loras| - 1].name)}
  }

  lemma {:induction false} TargetsHoldAll(loraDir: string, loras: seq<LoraModel>)
    ensures forall i :: 0 <= i < |loras| ==> Paths.Join(loraDir, loras[i].name) in Targets(loraDir, loras)
    decreases |loras|
  {
    if |loras| > 0 {
      var prefix := loras[..|loras| - 1];
      TargetsHoldAll(loraDir, prefix);
      assert forall i :: 0 <= i < |prefix| ==> prefix[i] == loras[i];
    }
  }

  /** One iteration of the LoRA loop, in terms of the specification
      functions of the prefix before it. */
  lemma LoadedStep(names: seq<string>, loras: seq<LoraModel>, i: nat)
    requires i < |loras|
    ensures var before := LoadedNames(names, loras[..i]);
            LoadedNames(names, loras[..i + 1])
              == if LoraName(loras[i]) in before then before else before + [LoraName(loras[i])]
  {
    assert loras[..i + 1][..i] == loras[..i];
  }

  lemma SelectionStep(loras: seq<LoraModel>, i: nat)
    requires i < |loras|
    ensures SelectedNames(loras[..i + 1]) == SelectedNames(loras[..i]) + [LoraName(loras[i])]
    ensures Weights(loras[..i + 1]) == Weights(loras[..i]) + [loras[i].weight]
  {
    var p, q := loras[..i + 1], loras[..i];
    assert forall k :: 0 <= k < |q| ==> q[k] == p[k];
  }

  lemma TargetsStep(loraDir: string, loras: seq<LoraModel>, i: nat)
    requires i < |loras|
    ensures Targets(loraDir, loras[..i + 1]) == Targets(loraDir, loras[..i]) + {Paths.Join(loraDir, loras[i].name)}
  {
    assert loras[..i + 1][..i] == loras[..i];
  }

  /** Lines 67-78 of the handler. `loraNames` is the process-wide list, which
      keeps what was appended even when a later install raises. On success
      every requested LoRA file exists under `loraDir`. */
  method PrepareLoras(manager: LoraManager.LoraManager, disk: FileSystem.Disk, server: LoraManager.Server,
                      loraDir: string, loras: seq<LoraModel>, names: seq<string>)
    returns (loraNames: seq<string>, selection: Result<(seq<string>, seq<Option<real>>), LoraManager.InstallError>,
             ghost failedAt: int)
    requires disk.Valid()
    modifies manager, disk
    ensures disk.Valid() && disk.dirs == old(disk.dirs)
    ensures selection.Ok? ==>
              selection.value == (SelectedNames(loras), Weights(loras))
              && loraNames == LoadedNames(names, loras)
              && forall i :: 0 <= i < |loras| ==> disk.Exists(Paths.Join(loraDir, loras[i].name))
    ensures old(disk.files).Keys <= disk.files.Keys
    ensures |old(manager.requests)| <= |manager.requests| <= |old(manager.requests)| + |loras|
    ensures manager.requests[..|old(manager.requests)|] == old(manager.requests)
    ensures selection.Err? ==>
              var k := failedAt;
              0 <= k < |loras| && loraNames == LoadedNames(names, loras[..k])
                && (forall i :: 0 <= i < k ==> disk.Exists(Paths.Join(loraDir, loras[i].name)))
                && !old(disk.Exists(Paths.Join(loraDir, loras[k].name)))
                && var headers := LoraManager.AuthHeaders(manager.remoteApiTokens, loras[k].source);
                   && LoraManager.InstallOutcome(server(loras[k].source, headers), false) == Err(selection.error)
                   && |manager.requests| > 0 && manager.requests[|manager.requests| - 1] == LoraManager.Request(loras[k].source, headers)
  {
    loraNames := names;
    var selectedLoras: seq<string> := [];
    var loraValues: seq<Option<real>> := [];
    var i := 0;
    while i < |loras|
      invariant 0 <= i <= |loras|
      invariant disk.Valid() && disk.dirs == old(disk.dirs)
      invariant loraNames == LoadedNames(names, loras[..i])
      invariant selectedLoras == SelectedNames(loras[..i])
      invariant loraValues == Weights(loras[..i])
      invariant Targets(loraDir, loras[..i]) <= disk.files.Keys + disk.dirs
      invariant old(disk.files).Keys <= disk.files.Keys
      invariant |old(manager.requests)| <= |manager.requests| <= |old(manager.requests)| + i
      invariant manager.requests[..|old(manager.requests)|] == old(manager.requests)
    {
      var lora := loras[i];
      ghost var before := manager.requests;
      var installed := manager.InstallModelIfNeeded(disk, server, loraDir, lora.name, lora.source);
      assert manager.requests[..|old(manager.requests)|] == before[..|old(manager.requests)|];
      if installed.Err? {
        TargetsHoldAll(loraDir, loras[..i]);
        assert forall j :: 0 <= j < i ==> loras[..i][j] == loras[j];
        return loraNames, Err(installed.error), i;
      }
      LoadedStep(names, loras, i);
      SelectionStep(loras, i);
      TargetsStep(loraDir, loras, i);
      var loraName := Paths.StripExtension(lora.name);
      if loraName !in loraNames {
        loraNames := loraNames + [loraName];
      }
      selectedLoras := selectedLoras + [loraName];
      loraValues := loraValues + [lora.weight];
      i := i + 1;
    }
    assert loras[..i] == loras;
    TargetsHoldAll(loraDir, loras);
    selection := Ok((selectedLoras, loraValues));
    failedAt := |loras|;
  }
}
