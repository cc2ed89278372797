/** pb2_to_pydantic without the module reflection: the top-level message
    descriptors are given as a list in the order the module lists them. */
module Driver {
  import opened Results
  import opened Text
  import opened Descriptors
  import opened Translator

  /** The fixed import block placed before the classes. */
  const Header: string :=
    "from typing import List, Dict, Any\nfrom enum import IntEnum\n\nfrom pydantic import BaseModel, Field\n\n\n"

  /** `linesep * 3`: two blank lines between top-level classes. */
  const BetweenModels: string := LineSep + LineSep + LineSep

  /** The names `class_names.update` seeds the set with. */
  function TopLevelNames(descriptors: seq<MsgDesc>): (r: set<string>)
    ensures forall i :: 0 <= i < |descriptors| ==> descriptors[i].name in r
    ensures forall n :: n in r ==> exists i :: 0 <= i < |descriptors| && descriptors[i].name == n
  {
    if descriptors == [] then {}
    else TopLevelNames(descriptors[..|descriptors| - 1]) + {descriptors[|descriptors| - 1].name}
  }

  /** The comprehension that runs msg2pydantic at level 0, with no prefix and
      skipping the name check, on every top-level descriptor in turn. Each
      one is emitted as a class of its own, and the set never shrinks. */
  function EmitAll(descriptors: seq<MsgDesc>, names: set<string>): (r: Result<Entries>)
    ensures r.Ok? ==> |r.value.lines| == |descriptors|
    ensures r.Ok? ==> forall i :: 0 <= i < |descriptors| ==> StartsWith(r.value.lines[i], ClassHeader(0, descriptors[i].name))
    ensures r.Ok? ==> names <= r.value.names
  {
    if descriptors == [] then Ok(Entries([], names))
    else
      var first :- Msg2Pydantic(0, descriptors[0], names, "", true);
      var rest :- EmitAll(descriptors[1..], first.names);
      Ok(Entries([first.text] + rest.lines, rest.names))
  }

  /** A top-level call records only its own name, already seeded, and names
      beginning with that name and "-". */
  lemma {:induction false} TopLevelAddsQualifiedNames(msg: MsgDesc, names: set<string>)
    requires msg.name in names
    requires Msg2Pydantic(0, msg, names, "", true).Ok?
    ensures forall n :: n in Msg2Pydantic(0, msg, names, "", true).value.names && n !in names ==> StartsWith(n, msg.name + "-")
  {
    assert "" + msg.name == msg.name;
    assert names + {msg.name} == names;
  }

  /** The only dash-free names the set ever holds are the seeded top-level
      names: the bare-name lookup in convert_field for a nested message is
      therefore never found unless that name is also a top-level name;
      otherwise every parent inlines its own copy. */
  lemma {:induction false} BareNestedNamesNeverRecorded(descriptors: seq<MsgDesc>, names: set<string>)
    requires forall i :: 0 <= i < |descriptors| ==> descriptors[i].name in names
    requires EmitAll(descriptors, names).Ok?
    ensures forall n :: n in EmitAll(descriptors, names).value.names && n !in names ==> '-' in n
  {
    if descriptors != [] {
      var d := descriptors[0];
      var first := Msg2Pydantic(0, d, names, "", true);
      TopLevelAddsQualifiedNames(d, names);
      forall n | n in first.value.names && n !in names ensures '-' in n {
        assert n[|d.name|] == (d.name + "-")[|d.name|];
      }
      BareNestedNamesNeverRecorded(descriptors[1..], first.value.names);
    }
  }

  /** `[m for m in models if m != ""]`. */
  function NonEmpty(models: seq<string>): (r: seq<string>)
    ensures forall i :: 0 <= i < |r| ==> r[i] != "" && r[i] in models
    ensures forall s :: s != "" ==> multiset(r)[s] == multiset(models)[s]
    ensures |models| == 1 ==> r == (if models[0] != "" then models else [])
    ensures (forall i :: 0 <= i < |models| ==> models[i] != "") ==> r == models
  {
    if models == [] then []
    else
      var init := models[..|models| - 1];
      var last := models[|models| - 1];
      assert models == init + [last];
      NonEmpty(init) + (if last != "" then [last] else [])
  }

  /** The filter works element by element, keeping the order: filtering
      `a + b` is filtering `a`, then `b`. */
  lemma {:induction false} NonEmptyAppend(a: seq<string>, b: seq<string>)
    ensures NonEmpty(a + b) == NonEmpty(a) + NonEmpty(b)
    decreases |b|
  {
    if b == [] {
      assert a + b == a;
    } else {
      var init := b[..|b| - 1];
      var last := b[|b| - 1];
      assert (a + b)[..|a + b| - 1] == a + init;
      assert (a + b)[|a + b| - 1] == last;
      NonEmptyAppend(a, init);
    }
  }

  function Generate(descriptors: seq<MsgDesc>): (r: Result<string>)
    ensures r.Ok? <==> EmitAll(descriptors, TopLevelNames(descriptors)).Ok?
    ensures r.Ok? ==> StartsWith(r.value, Header)
    ensures r.Ok? ==> r.value == Header + Join(BetweenModels, EmitAll(descriptors, TopLevelNames(descriptors)).value.lines)
  {
    var emitted :- EmitAll(descriptors, TopLevelNames(descriptors));
    forall i | 0 <= i < |emitted.lines| ensures emitted.lines[i] != "" {
      assert StartsWith(emitted.lines[i], ClassHeader(0, descriptors[i].name));
    }
    Ok(Header + Join(BetweenModels, NonEmpty(emitted.lines)))
  }

  /** `emitted` with `done` placed before its lines. */
  function AfterDone(done: seq<string>, emitted: Result<Entries>): Result<Entries> {
    match emitted
    case Err(e) => Err(e)
    case Ok(rest) => Ok(Entries(done + rest.lines, rest.names))
  }

  lemma EmitAllUnfold(descriptors: seq<MsgDesc>, names: set<string>)
    requires descriptors != []
    ensures EmitAll(descriptors, names)
              == match Msg2Pydantic(0, descriptors[0], names, "", true)
                 case Err(e) => Err(e)
                 case Ok(first) => AfterDone([first.text], EmitAll(descriptors[1..], first.names))
  {
  }

  lemma AfterDoneAppend(done: seq<string>, more: seq<string>, emitted: Result<Entries>)
    ensures AfterDone(done, AfterDone(more, emitted)) == AfterDone(done + more, emitted)
  {
    if emitted.Ok? {
      assert done + (more + emitted.value.lines) == (done + more) + emitted.value.lines;
    }
  }

  /** `class_names.update(d.name for d in descriptors)` on an empty set. */
  method SeedNames(descriptors: seq<MsgDesc>) returns (classNames: set<string>)
    ensures classNames == TopLevelNames(descriptors)
  {
    classNames := {};
    var i := 0;
    while i < |descriptors|
      invariant 0 <= i <= |descriptors|
      invariant classNames == TopLevelNames(descriptors[..i])
    {
      assert descriptors[..i + 1][..i] == descriptors[..i];
      classNames := classNames + {descriptors[i].name};
      i := i + 1;
    }
    assert descriptors[..i] == descriptors;
  }

  /** The emission comprehension, running msg2pydantic on each top-level
      descriptor with the set left by the ones before it. */
  method EmitModels(descriptors: seq<MsgDesc>, seeded: set<string>) returns (r: Result<seq<string>>)
    ensures r.Ok? <==> EmitAll(descriptors, seeded).Ok?
    ensures r.Ok? ==> r.value == EmitAll(descriptors, seeded).value.lines
    ensures r.Err? ==> EmitAll(descriptors, seeded) == Err(r.error)
  {
    var classNames := seeded;
    var models: seq<string> := [];
    var i := 0;
    assert descriptors[i..] == descriptors;
    var all := EmitAll(descriptors, seeded);
    if all.Ok? {
      assert [] + all.value.lines == all.value.lines;
    }
    while i < |descriptors|
      invariant 0 <= i <= |descriptors|
      invariant EmitAll(descriptors, seeded) == AfterDone(models, EmitAll(descriptors[i..], classNames))
    {
      var model := Msg2Pydantic(0, descriptors[i], classNames, "", true);
      EmitAllUnfold(descriptors[i..], classNames);
      assert descriptors[i..][0] == descriptors[i];
      assert descriptors[i..][1..] == descriptors[i + 1..];
      if model.Err? {
        return Err(model.error);
      }
      AfterDoneAppend(models, [model.value.text], EmitAll(descriptors[i + 1..], model.value.names));
      models := models + [model.value.text];
      classNames := model.value.names;
      i := i + 1;
    }
    assert descriptors[i..] == [];
    assert models + [] == models;
    r := Ok(models);
  }

  /** `[m for m in pydantic_models if m != ""]`. */
  method DropEmpty(models: seq<string>) returns (kept: seq<string>)
    ensures kept == NonEmpty(models)
  {
    kept := [];
    var j := 0;
    while j < |models|
      invariant 0 <= j <= |models|
      invariant kept == NonEmpty(models[..j])
    {
      assert models[..j + 1][..j] == models[..j];
      if models[j] != "" {
        kept := kept + [models[j]];
      }
      j := j + 1;
    }
    assert models[..j] == models;
  }

  /** pb2_to_pydantic: seed the set, emit every top-level class in order,
      drop empty results, and put the header first. */
  method Pb2ToPydantic(descriptors: seq<MsgDesc>) returns (r: Result<string>)
    ensures r == Generate(descriptors)
  {
    var classNames := SeedNames(descriptors);
    var models := EmitModels(descriptors, classNames);
    if models.Err? {
      return Err(models.error);
    }
    var kept := DropEmpty(models.value);
    r := Ok(Header + Join(BetweenModels, kept));
  }
}
