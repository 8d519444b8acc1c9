/**
  The two command-line scripts around the barrel rewrite: `generate-api`
  takes the route name from the command line, refuses to touch anything when
  one of the seven target files exists, then writes six of them and registers
  the new classes in four `index.ts` barrels; `remove-api` takes the first
  argument that is not a `--` flag, asks for confirmation and deletes whichever
  of the seven target files exist.

  The file system is a map from path to content. `path.join` is modelled on
  segments that carry no separators of their own: the segments joined by '/'.
*/
module ApiScripts {
  import opened Common
  import opened Strings
  import opened Scaffold

  // ---------------------------------------------------------------------------
  // The route name
  // ---------------------------------------------------------------------------

  /** `generate-api`: `args[0]`, refused when it is missing or empty. */
  function GeneratorRoute(args: seq<string>): Option<string> {
    if |args| == 0 || args[0] == [] then None else Some(args[0])
  }

  /** The index `args.find(arg => !arg.startsWith("--"))` stops at; `|args|` when every argument is a flag. */
  function FirstNonFlag(args: seq<string>, from: nat): (i: nat)
    requires from <= |args|
    ensures from <= i <= |args|
    ensures forall j :: from <= j < i ==> StartsWith(args[j], "--")
    ensures i < |args| ==> !StartsWith(args[i], "--")
    decreases |args| - from
  {
    if from == |args| || !StartsWith(args[from], "--") then from else FirstNonFlag(args, from + 1)
  }

  /** `remove-api`: the first argument that is not a flag, refused when there is none or it is empty. */
  function RemoverRoute(args: seq<string>): Option<string> {
    var i := FirstNonFlag(args, 0);
    if i == |args| || args[i] == [] then None else Some(args[i])
  }

  /**
    `remove-api` finds a route name exactly when some argument is not a flag
    and the first such argument is not empty; it is that argument.
  */
  lemma RemoverRouteIsFirstNonFlag(args: seq<string>)
    ensures RemoverRoute(args).Some? <==>
              exists i :: 0 <= i < |args| && !StartsWith(args[i], "--") && args[i] != []
                          && forall j :: 0 <= j < i ==> StartsWith(args[j], "--")
    ensures RemoverRoute(args).Some? ==> !StartsWith(RemoverRoute(args).value, "--")
  {
    var i := FirstNonFlag(args, 0);
    if RemoverRoute(args).None? {
      forall k | 0 <= k < |args| && !StartsWith(args[k], "--") && args[k] != []
        ensures exists j :: 0 <= j < k && !StartsWith(args[j], "--")
      {
        assert k != i;
        if k > i {
          assert i < |args| && !StartsWith(args[i], "--");
        }
      }
    }
  }

  /** When the first argument is a route name and not a flag, both scripts read the same route name. */
  lemma RoutesAgree(args: seq<string>)
    requires |args| > 0 && !StartsWith(args[0], "--")
    ensures RemoverRoute(args) == GeneratorRoute(args)
  {
    assert FirstNonFlag(args, 0) == 0;
  }

  /** With a flag in front, the scripts disagree: `generate-api` takes the flag itself as the route name. */
  lemma FlagFirstDisagrees()
    ensures GeneratorRoute(["--yes", "post"]) == Some("--yes")
    ensures RemoverRoute(["--yes", "post"]) == Some("post")
  {
    var args := ["--yes", "post"];
    assert args[0][..2] == "--";
    assert !StartsWith(args[1], "--") by {
      assert args[1][..2] != "--" by { assert args[1][0] == 'p'; }
    }
    assert FirstNonFlag(args, 1) == 1;
    assert FirstNonFlag(args, 0) == 1;
  }

  // ---------------------------------------------------------------------------
  // The confirmation answer
  // ---------------------------------------------------------------------------

  /** `answer.toLowerCase() === "y" || answer.toLowerCase() === "yes"`. */
  predicate Confirmed(answer: string) {
    ToLower(answer) == "y" || ToLower(answer) == "yes"
  }

  /** The answers that confirm: "y" or "yes" in any mix of letter case, and nothing else. */
  lemma ConfirmedAnswers(answer: string)
    ensures Confirmed(answer) <==>
              || (|answer| == 1 && answer[0] in "yY")
              || (|answer| == 3 && answer[0] in "yY" && answer[1] in "eE" && answer[2] in "sS")
  {
    var l := ToLower(answer);
    if |answer| == 1 {
      assert l == "y" <==> l[0] == 'y';
    }
    if |answer| == 3 {
      assert l == "yes" <==> l[0] == 'y' && l[1] == 'e' && l[2] == 's';
    }
  }

  // ---------------------------------------------------------------------------
  // The seven target files
  // ---------------------------------------------------------------------------

  /** The keys of the `files` object, in its order. */
  datatype Target = Types | Model | Controller | Service | Repository | Route | Validator

  const Targets: seq<Target> := [Types, Model, Controller, Service, Repository, Route, Validator]

  /** The directory under `src` a target lives in. */
  function Dir(t: Target): string {
    match t
    case Types => "types"
    case Model => "models"
    case Controller => "controllers"
    case Service => "services"
    case Repository => "repositories"
    case Route => "routes"
    case Validator => "validators"
  }

  /** The file-name suffix a target gets after the kebab-case stem. */
  function Suffix(t: Target): string {
    match t
    case Types => ".types.ts"
    case Model => ".model.ts"
    case Controller => ".controller.ts"
    case Service => ".service.ts"
    case Repository => ".repository.ts"
    case Route => ".routes.ts"
    case Validator => ".validator.ts"
  }

  /** `path.join(a, b)`. */
  function Join(a: string, b: string): string {
    a + "/" + b
  }

  /** `generate-api`: `path.join(dirs[...], `${kebabCase}${suffix}`)`, where `dirs[...]` is itself `path.join(baseDir, dir)`. */
  function GeneratorPath(base: string, t: Target, stem: string): string {
    Join(Join(base, Dir(t)), stem + Suffix(t))
  }

  /** `remove-api`: `path.join(baseDir, dir, `${kebabCase}${suffix}`)`. */
  function RemoverPath(base: string, t: Target, stem: string): string {
    base + "/" + Dir(t) + "/" + (stem + Suffix(t))
  }

  /** The barrel of a target's directory: `path.join(dirs[...], "index.ts")`. */
  function IndexPath(base: string, t: Target): string {
    Join(Join(base, Dir(t)), "index.ts")
  }

  function GeneratorPaths(base: string, stem: string): seq<string> {
    seq(|Targets|, i requires 0 <= i < |Targets| => GeneratorPath(base, Targets[i], stem))
  }

  function RemoverPaths(base: string, stem: string): seq<string> {
    seq(|Targets|, i requires 0 <= i < |Targets| => RemoverPath(base, Targets[i], stem))
  }

  /**
    For a route name given first and not as a flag, `remove-api` targets
    exactly the files `generate-api` creates for it, in the same order.
  */
  lemma ScriptsShareTargets(args: seq<string>, base: string)
    requires |args| > 0 && args[0] != [] && !StartsWith(args[0], "--")
    ensures RemoverRoute(args).Some? && GeneratorRoute(args).Some?
    ensures RemoverPaths(base, KebabCase(RemoverRoute(args).value))
            == GeneratorPaths(base, KebabCase(GeneratorRoute(args).value))
  {
    RoutesAgree(args);
    SamePaths(base, KebabCase(args[0]));
  }

  /** No two target directories start with the same two letters. */
  lemma DirInitialsDiffer(t1: Target, t2: Target)
    requires t1 != t2
    ensures Dir(t1)[0] != Dir(t2)[0] || Dir(t1)[1] != Dir(t2)[1]
  {
    match t1
    case Types =>
    case Model =>
    case Controller =>
    case Service =>
    case Repository =>
    case Route =>
    case Validator =>
  }

  /** Two paths in the same base differ when their directories differ or their file names differ in length. */
  lemma PathsDiffer(base: string, t1: Target, f1: string, t2: Target, f2: string)
    requires t1 != t2 || |f1| != |f2|
    ensures Join(Join(base, Dir(t1)), f1) != Join(Join(base, Dir(t2)), f2)
  {
    var p1 := Join(Join(base, Dir(t1)), f1);
    var p2 := Join(Join(base, Dir(t2)), f2);
    var n := |base| + 1;
    if t1 != t2 {
      assert p1[n] == Dir(t1)[0] && p1[n + 1] == Dir(t1)[1];
      assert p2[n] == Dir(t2)[0] && p2[n + 1] == Dir(t2)[1];
      DirInitialsDiffer(t1, t2);
    }
  }

  /** The seven target paths are pairwise distinct and none of them is a barrel. */
  lemma TargetPathsDistinct(base: string, stem: string)
    ensures forall t1, t2 :: t1 != t2 ==> GeneratorPath(base, t1, stem) != GeneratorPath(base, t2, stem)
    ensures forall t1, t2 :: GeneratorPath(base, t1, stem) != IndexPath(base, t2)
    ensures forall t1, t2 :: t1 != t2 ==> IndexPath(base, t1) != IndexPath(base, t2)
  {
    forall t1, t2 | t1 != t2
      ensures GeneratorPath(base, t1, stem) != GeneratorPath(base, t2, stem)
      ensures IndexPath(base, t1) != IndexPath(base, t2)
    {
      PathsDiffer(base, t1, stem + Suffix(t1), t2, stem + Suffix(t2));
      PathsDiffer(base, t1, "index.ts", t2, "index.ts");
    }
    forall t1, t2 ensures GeneratorPath(base, t1, stem) != IndexPath(base, t2) {
      PathsDiffer(base, t1, stem + Suffix(t1), t2, "index.ts");
    }
  }

  // ---------------------------------------------------------------------------
  // What generate-api writes
  // ---------------------------------------------------------------------------

  /** The file system: path to content. */
  type Files = map<string, string>

  /** `fs.existsSync(p) ? fs.readFileSync(p, "utf8") : ""`, as both updaters read a barrel. */
  function ReadOrEmpty(fs: Files, p: string): string {
    if p in fs then fs[p] else ""
  }

  /** The module a target's file is imported from, after the stem: its suffix without ".ts". */
  function ModuleSuffix(t: Target): string {
    match t
    case Types => ".types"
    case Model => ".model"
    case Controller => ".controller"
    case Service => ".service"
    case Repository => ".repository"
    case Route => ".routes"
    case Validator => ".validator"
  }

  /** The suffix of the class a barrel registers after the Pascal-case name. */
  function ClassSuffix(t: Target): string {
    match t
    case Controller => "Controller"
    case Service => "Service"
    case Repository => "Repository"
    case Validator => "Schema"
    case _ => ""
  }

  /** The targets whose directory barrel the script updates. */
  predicate HasBarrel(t: Target) {
    t != Types && t != Route
  }

  /** A file the script writes: a target's own file or its directory's barrel. */
  datatype Slot = TemplateOf(t: Target) | BarrelOf(t: Target)

  function SlotPath(base: string, stem: string, s: Slot): string {
    match s
    case TemplateOf(t) => GeneratorPath(base, t, stem)
    case BarrelOf(t) => IndexPath(base, t)
  }

  /** The writes in the order of the script: each file, then its barrel; the route has none, the types file is never written. */
  const GenerationSlots: seq<Slot> :=
    [ TemplateOf(Model), BarrelOf(Model),
      TemplateOf(Controller), BarrelOf(Controller),
      TemplateOf(Service), BarrelOf(Service),
      TemplateOf(Repository), BarrelOf(Repository),
      TemplateOf(Route),
      TemplateOf(Validator), BarrelOf(Validator) ]

  /** One write: a rendered template, or a barrel updated by one of the two updaters. */
  datatype Step =
    | WriteTemplate(path: string, text: string)
    | RegisterClass(path: string, className: string, fileName: string)
    | RegisterModel(path: string, className: string, fileName: string)

  /** The content a step leaves at its path, given the content there before. */
  function Effect(st: Step, before: string): string {
    match st
    case WriteTemplate(_, text) => text
    case RegisterClass(_, c, f) => UpdateIndexFile(before, c, f)
    case RegisterModel(_, c, f) => UpdateModelIndexFile(before, c, f)
  }

  function Apply(fs: Files, st: Step): Files {
    fs[st.path := Effect(st, ReadOrEmpty(fs, st.path))]
  }

  /** The steps from index `k` on, applied in order. */
  function ApplyFrom(fs: Files, steps: seq<Step>, k: nat): Files
    decreases |steps| - k
  {
    if k >= |steps| then fs else ApplyFrom(Apply(fs, steps[k]), steps, k + 1)
  }

  function ApplyAll(fs: Files, steps: seq<Step>): Files {
    ApplyFrom(fs, steps, 0)
  }

  /** Performing step `k` moves on to the remaining steps. */
  lemma Advance(fs: Files, steps: seq<Step>, k: nat, next: Files)
    requires k < |steps| && next == Apply(fs, steps[k])
    ensures ApplyFrom(fs, steps, k) == ApplyFrom(next, steps, k + 1)
  {
  }

  lemma ApplyFromEnd(fs: Files, steps: seq<Step>)
    ensures ApplyFrom(fs, steps, |steps|) == fs
  {
  }

  /** The write of one slot, for class name `pascal`, stem `stem` and the rendered templates `template`. */
  function StepFor(base: string, pascal: string, stem: string, template: Target -> string, s: Slot): (st: Step)
    ensures st.path == SlotPath(base, stem, s)
  {
    match s
    case TemplateOf(t) => WriteTemplate(GeneratorPath(base, t, stem), template(t))
    case BarrelOf(t) =>
      if t == Model then RegisterModel(IndexPath(base, Model), pascal, stem + ModuleSuffix(Model))
      else RegisterClass(IndexPath(base, t), pascal + ClassSuffix(t), stem + ModuleSuffix(t))
  }

  /** The writes of the script, in its order. */
  function GenerationSteps(base: string, pascal: string, stem: string, template: Target -> string): seq<Step> {
    [ WriteTemplate(GeneratorPath(base, Model, stem), template(Model)),
      RegisterModel(IndexPath(base, Model), pascal, stem + ".model"),
      WriteTemplate(GeneratorPath(base, Controller, stem), template(Controller)),
      RegisterClass(IndexPath(base, Controller), pascal + "Controller", stem + ".controller"),
      WriteTemplate(GeneratorPath(base, Service, stem), template(Service)),
      RegisterClass(IndexPath(base, Service), pascal + "Service", stem + ".service"),
      WriteTemplate(GeneratorPath(base, Repository, stem), template(Repository)),
      RegisterClass(IndexPath(base, Repository), pascal + "Repository", stem + ".repository"),
      WriteTemplate(GeneratorPath(base, Route, stem), template(Route)),
      WriteTemplate(GeneratorPath(base, Validator, stem), template(Validator)),
      RegisterClass(IndexPath(base, Validator), pascal + "Schema", stem + ".validator") ]
  }

  /** Step `i` of the script is the write of slot `i`. */
  lemma StepsFollowSlots(base: string, pascal: string, stem: string, template: Target -> string, i: nat)
    requires i < |GenerationSlots|
    ensures |GenerationSteps(base, pascal, stem, template)| == |GenerationSlots|
    ensures GenerationSteps(base, pascal, stem, template)[i] == StepFor(base, pascal, stem, template, GenerationSlots[i])
  {
    var steps := GenerationSteps(base, pascal, stem, template);
    var s := GenerationSlots[i];
    if i < 6 {
      if i == 0 { assert s == TemplateOf(Model); }
      else if i == 1 { assert s == BarrelOf(Model); }
      else if i == 2 { assert s == TemplateOf(Controller); }
      else if i == 3 { assert s == BarrelOf(Controller); }
      else if i == 4 { assert s == TemplateOf(Service); }
      else { assert s == BarrelOf(Service); }
    } else {
      if i == 6 { assert s == TemplateOf(Repository); }
      else if i == 7 { assert s == BarrelOf(Repository); }
      else if i == 8 { assert s == TemplateOf(Route); }
      else if i == 9 { assert s == TemplateOf(Validator); }
      else { assert s == BarrelOf(Validator); }
    }
  }

  /** The position of a slot in `GenerationSlots`; 11 for the slots that are not there. */
  function SlotRank(s: Slot): nat {
    match s
    case TemplateOf(Model) => 0
    case BarrelOf(Model) => 1
    case TemplateOf(Controller) => 2
    case BarrelOf(Controller) => 3
    case TemplateOf(Service) => 4
    case BarrelOf(Service) => 5
    case TemplateOf(Repository) => 6
    case BarrelOf(Repository) => 7
    case TemplateOf(Route) => 8
    case TemplateOf(Validator) => 9
    case BarrelOf(Validator) => 10
    case _ => 11
  }

  /** A slot the script writes: a target file but the types file, or one of the five barrels. */
  predicate Written(s: Slot) {
    (s.TemplateOf? && s.t != Types) || (s.BarrelOf? && HasBarrel(s.t))
  }

  /** No slot is written twice: the rank of each slot is its position. */
  lemma SlotRanks()
    ensures forall i :: 0 <= i < |GenerationSlots| ==> SlotRank(GenerationSlots[i]) == i
  {
  }

  /** Every slot the script should write is in the list, at its rank. */
  lemma SlotListed(s: Slot)
    requires Written(s)
    ensures SlotRank(s) < |GenerationSlots| && GenerationSlots[SlotRank(s)] == s
  {
    match s {
      case TemplateOf(t) =>
        match t { case Types => case _ => }
      case BarrelOf(t) =>
        match t { case Types => case Route => case _ => }
    }
  }

  /** Every slot in the list is one the script should write. */
  lemma SlotWritten(i: nat)
    requires i < |GenerationSlots|
    ensures Written(GenerationSlots[i])
  {
  }

  /** Different slots are different files. */
  lemma SlotPathsDistinct(base: string, stem: string, s1: Slot, s2: Slot)
    requires s1 != s2
    ensures SlotPath(base, stem, s1) != SlotPath(base, stem, s2)
  {
    TargetPathsDistinct(base, stem);
  }

  /** A path no step from `k` on writes keeps its content. */
  lemma {:induction false} ApplyFromElsewhere(fs: Files, steps: seq<Step>, k: nat, p: string)
    requires forall i :: k <= i < |steps| ==> steps[i].path != p
    ensures p in ApplyFrom(fs, steps, k) <==> p in fs
    ensures p in fs ==> ApplyFrom(fs, steps, k)[p] == fs[p]
    decreases |steps| - k
  {
    if k < |steps| {
      ApplyFromElsewhere(Apply(fs, steps[k]), steps, k + 1, p);
    }
  }

  /** A path only step `i` writes ends up holding that step's effect on its original content. */
  lemma {:induction false} ApplyFromOnly(fs: Files, steps: seq<Step>, k: nat, i: nat)
    requires k <= i < |steps|
    requires forall j :: k <= j < |steps| && j != i ==> steps[j].path != steps[i].path
    ensures steps[i].path in ApplyFrom(fs, steps, k)
    ensures ApplyFrom(fs, steps, k)[steps[i].path] == Effect(steps[i], ReadOrEmpty(fs, steps[i].path))
    decreases |steps| - k
  {
    var next := Apply(fs, steps[k]);
    if i == k {
      ApplyFromElsewhere(next, steps, k + 1, steps[i].path);
    } else {
      ApplyFromOnly(next, steps, k + 1, i);
      assert ReadOrEmpty(next, steps[i].path) == ReadOrEmpty(fs, steps[i].path);
    }
  }

  /** Each slot of the script ends up holding its step's effect on what was there before the script ran. */
  lemma GenerationSlotOutcome(fs: Files, base: string, pascal: string, stem: string, template: Target -> string, s: Slot)
    requires s in GenerationSlots
    ensures var r := ApplyAll(fs, GenerationSteps(base, pascal, stem, template));
            var p := SlotPath(base, stem, s);
            p in r && r[p] == Effect(StepFor(base, pascal, stem, template, s), ReadOrEmpty(fs, p))
  {
    var steps := GenerationSteps(base, pascal, stem, template);
    SlotRanks();
    var i :| 0 <= i < |GenerationSlots| && GenerationSlots[i] == s;
    StepsFollowSlots(base, pascal, stem, template, i);
    forall j | 0 <= j < |steps| && j != i ensures steps[j].path != steps[i].path {
      StepsFollowSlots(base, pascal, stem, template, j);
      SlotPathsDistinct(base, stem, GenerationSlots[j], s);
    }
    ApplyFromOnly(fs, steps, 0, i);
  }

  /** Every file the script does not write is as it was. */
  lemma GenerationElsewhere(fs: Files, base: string, pascal: string, stem: string, template: Target -> string, p: string)
    requires forall s :: s in GenerationSlots ==> SlotPath(base, stem, s) != p
    ensures var r := ApplyAll(fs, GenerationSteps(base, pascal, stem, template));
            (p in r <==> p in fs) && (p in fs ==> r[p] == fs[p])
  {
    var steps := GenerationSteps(base, pascal, stem, template);
    forall i | 0 <= i < |steps| ensures steps[i].path != p {
      StepsFollowSlots(base, pascal, stem, template, i);
      assert GenerationSlots[i] in GenerationSlots;
    }
    ApplyFromElsewhere(fs, steps, 0, p);
  }

  /** Each target file but the types file holds its rendered template afterwards. */
  lemma GenerationWritesTemplate(fs: Files, base: string, pascal: string, stem: string, template: Target -> string, t: Target)
    requires t != Types
    ensures var r := ApplyAll(fs, GenerationSteps(base, pascal, stem, template));
            GeneratorPath(base, t, stem) in r && r[GeneratorPath(base, t, stem)] == template(t)
  {
    SlotListed(TemplateOf(t));
    GenerationSlotOutcome(fs, base, pascal, stem, template, TemplateOf(t));
  }

  /** The types file is checked by the guard but never written: it is as it was. */
  lemma GenerationSkipsTypes(fs: Files, base: string, pascal: string, stem: string, template: Target -> string)
    ensures var r := ApplyAll(fs, GenerationSteps(base, pascal, stem, template));
            var p := GeneratorPath(base, Types, stem);
            (p in r <==> p in fs) && (p in fs ==> r[p] == fs[p])
  {
    forall s | s in GenerationSlots ensures SlotPath(base, stem, s) != GeneratorPath(base, Types, stem) {
      var i :| 0 <= i < |GenerationSlots| && GenerationSlots[i] == s;
      SlotWritten(i);
      SlotPathsDistinct(base, stem, s, TemplateOf(Types));
    }
    GenerationElsewhere(fs, base, pascal, stem, template, GeneratorPath(base, Types, stem));
  }

  /** A barrel that imports the class of target `t` from its module and lists it in its first export block. */
  predicate Registered(content: string, t: Target, pascal: string, stem: string) {
    if t == Model then
      Contains(content, ImportLine(ModelNames(pascal), stem + ModuleSuffix(Model))) && Lists(content, pascal)
    else
      Contains(content, ImportLine(pascal + ClassSuffix(t), stem + ModuleSuffix(t))) && Lists(content, pascal + ClassSuffix(t))
  }

  lemma AppendNoBraces(a: string, b: string)
    requires NoBraces(a) && NoBraces(b)
    ensures NoBraces(a + b)
  {
    var c := a + b;
    forall m | 0 <= m < |c| ensures c[m] != '{' && c[m] != '}' {
      if m >= |a| {
        assert c[m] == b[m - |a|];
      }
    }
  }

  /** Case conversion keeps a usable export name usable and a brace-free stem brace-free. */
  lemma CasedNames(route: string)
    requires NameList(route)
    ensures NameList(PascalCase(route)) && NoBraces(KebabCase(route))
  {
    var p := PascalCase(route);
    var k := KebabCase(route);
    assert p[0] == UpperChar(route[0]);
    forall m | 0 <= m < |p| ensures p[m] != '{' && p[m] != '}' {
      if m > 0 {
        assert p[m] == LowerChar(route[m]);
      }
    }
    assert forall m :: 0 <= m < |k| ==> k[m] == LowerChar(route[m]);
  }

  /**
    After `generate-api` for route `route`, each of the five barrels imports
    the new class (the model barrel: the class and its interface) from the
    new file and lists it in its first export block.
  */
  lemma GenerationRegisters(fs: Files, base: string, route: string, template: Target -> string, t: Target)
    requires NameList(route) && HasBarrel(t)
    ensures var pascal := PascalCase(route);
            var stem := KebabCase(route);
            var r := ApplyAll(fs, GenerationSteps(base, pascal, stem, template));
            IndexPath(base, t) in r && Registered(r[IndexPath(base, t)], t, pascal, stem)
  {
    var pascal := PascalCase(route);
    var stem := KebabCase(route);
    CasedNames(route);
    SlotListed(BarrelOf(t));
    GenerationSlotOutcome(fs, base, pascal, stem, template, BarrelOf(t));
    BarrelUpdateRegisters(ReadOrEmpty(fs, IndexPath(base, t)), base, pascal, stem, template, t);
  }

  /** Whatever a barrel held before, its update registers the class. */
  lemma BarrelUpdateRegisters(before: string, base: string, pascal: string, stem: string, template: Target -> string, t: Target)
    requires NameList(pascal) && NoBraces(stem) && HasBarrel(t)
    ensures Registered(Effect(StepFor(base, pascal, stem, template, BarrelOf(t)), before), t, pascal, stem)
  {
    SuffixesNoBraces(t);
    var f := stem + ModuleSuffix(t);
    AppendNoBraces(stem, ModuleSuffix(t));
    if t == Model {
      assert Effect(StepFor(base, pascal, stem, template, BarrelOf(t)), before) == UpdateModelIndexFile(before, pascal, f);
      UpdateModelIndexFileRegisters(before, pascal, f);
    } else {
      var c := pascal + ClassSuffix(t);
      AppendNoBraces(pascal, ClassSuffix(t));
      assert NameList(c) by {
        assert c[0] == pascal[0];
      }
      assert Effect(StepFor(base, pascal, stem, template, BarrelOf(t)), before) == UpdateIndexFile(before, c, f);
      UpdateIndexFileRegisters(before, c, f);
    }
  }

  lemma SuffixesNoBraces(t: Target)
    ensures NoBraces(ModuleSuffix(t)) && NoBraces(ClassSuffix(t))
  {
    ModuleSuffixNoBraces(t);
    ClassSuffixNoBraces(t);
  }

  lemma ModuleSuffixNoBraces(t: Target)
    ensures NoBraces(ModuleSuffix(t))
  {
    match t {
      case Types =>
      case Model =>
      case Controller =>
      case Service =>
      case Repository =>
      case Route =>
      case Validator =>
    }
  }

  lemma ClassSuffixNoBraces(t: Target)
    ensures NoBraces(ClassSuffix(t))
  {
    match t {
      case Controller =>
      case Service =>
      case Repository =>
      case Validator =>
      case _ =>
    }
  }

  /** The guard of `generate-api`: the targets, in order, whose file already exists. */
  function ExistingAmong(fs: Files, base: string, stem: string, ts: seq<Target>): (r: seq<Target>)
    ensures forall t :: t in r <==> t in ts && GeneratorPath(base, t, stem) in fs
    ensures |r| <= |ts|
  {
    if ts == [] then []
    else
      var rest := ExistingAmong(fs, base, stem, ts[1..]);
      assert forall t :: t in ts <==> t == ts[0] || t in ts[1..];
      if GeneratorPath(base, ts[0], stem) in fs then [ts[0]] + rest else rest
  }

  function ExistingTargets(fs: Files, base: string, stem: string): seq<Target> {
    ExistingAmong(fs, base, stem, Targets)
  }

  lemma TargetsComplete(t: Target)
    ensures t in Targets
  {
    match t
    case Types => assert Targets[0] == t;
    case Model => assert Targets[1] == t;
    case Controller => assert Targets[2] == t;
    case Service => assert Targets[3] == t;
    case Repository => assert Targets[4] == t;
    case Route => assert Targets[5] == t;
    case Validator => assert Targets[6] == t;
  }

  /** The guard lets the script through exactly when none of the seven target files exists. */
  lemma GuardPasses(fs: Files, base: string, stem: string)
    ensures ExistingTargets(fs, base, stem) == [] <==> forall t :: GeneratorPath(base, t, stem) !in fs
  {
    if ExistingTargets(fs, base, stem) != [] {
      assert ExistingTargets(fs, base, stem)[0] in ExistingTargets(fs, base, stem);
    } else {
      forall t ensures GeneratorPath(base, t, stem) !in fs {
        TargetsComplete(t);
      }
    }
  }

  // ---------------------------------------------------------------------------
  // What remove-api deletes
  // ---------------------------------------------------------------------------

  /** One line of the report: the file was deleted, or skipped because it did not exist. */
  datatype Removal = Deleted(path: string) | Skipped(path: string)

  /** The file system after deleting `paths` one after the other. */
  function Removed(fs: Files, paths: seq<string>): Files
    decreases |paths|
  {
    if paths == [] then fs else Removed(fs, paths[..|paths| - 1]) - {paths[|paths| - 1]}
  }

  /** The report of deleting `paths` one after the other, each checked for existence when its turn comes. */
  function RemovalLog(fs: Files, paths: seq<string>): seq<Removal>
    decreases |paths|
  {
    if paths == [] then []
    else
      var init := paths[..|paths| - 1];
      var p := paths[|paths| - 1];
      RemovalLog(fs, init) + [if p in Removed(fs, init) then Deleted(p) else Skipped(p)]
  }

  /** Deleting `paths` removes exactly those paths and leaves every other file as it was. */
  lemma {:induction false} RemovedExactly(fs: Files, paths: seq<string>, q: string)
    ensures q in Removed(fs, paths) <==> q in fs && q !in paths
    ensures q in Removed(fs, paths) ==> Removed(fs, paths)[q] == fs[q]
    decreases |paths|
  {
    if paths != [] {
      var init := paths[..|paths| - 1];
      RemovedExactly(fs, init, q);
      assert q in paths <==> q in init || q == paths[|paths| - 1] by {
        assert paths == init + [paths[|paths| - 1]];
      }
    }
  }

  /** For distinct paths, the report has one line per path: deleted when it existed, skipped otherwise. */
  lemma {:induction false} RemovalLogDistinct(fs: Files, paths: seq<string>)
    requires forall i, j :: 0 <= i < j < |paths| ==> paths[i] != paths[j]
    ensures |RemovalLog(fs, paths)| == |paths|
    ensures forall i :: 0 <= i < |paths| ==>
              RemovalLog(fs, paths)[i] == (if paths[i] in fs then Deleted(paths[i]) else Skipped(paths[i]))
    decreases |paths|
  {
    if paths != [] {
      var n := |paths| - 1;
      var init := paths[..n];
      RemovalLogDistinct(fs, init);
      RemovedExactly(fs, init, paths[n]);
      assert paths[n] !in init by {
        forall i | 0 <= i < n ensures init[i] != paths[n] {
          assert init[i] == paths[i];
        }
      }
    }
  }

  lemma TargetPositions()
    ensures forall i, j :: 0 <= i < j < |Targets| ==> Targets[i] != Targets[j]
  {
    var rank := (t: Target) => match t
      case Types => 0 case Model => 1 case Controller => 2 case Service => 3
      case Repository => 4 case Route => 5 case Validator => 6;
    assert forall i :: 0 <= i < |Targets| ==> rank(Targets[i]) == i;
  }

  /** The seven paths `remove-api` visits are distinct, so its report has one line per target file. */
  lemma RemovalReport(fs: Files, base: string, stem: string)
    ensures var paths := RemoverPaths(base, stem);
            && |RemovalLog(fs, paths)| == |Targets|
            && forall i :: 0 <= i < |Targets| ==>
                 RemovalLog(fs, paths)[i] == (if paths[i] in fs then Deleted(paths[i]) else Skipped(paths[i]))
  {
    var paths := RemoverPaths(base, stem);
    SamePaths(base, stem);
    TargetPositions();
    TargetPathsDistinct(base, stem);
    RemovalLogDistinct(fs, paths);
  }

  /** Both scripts name the same seven files for the same stem. */
  lemma SamePaths(base: string, stem: string)
    ensures RemoverPaths(base, stem) == GeneratorPaths(base, stem)
  {
    forall i | 0 <= i < |Targets|
      ensures RemoverPaths(base, stem)[i] == GeneratorPaths(base, stem)[i]
    {
      assert base + "/" + Dir(Targets[i]) + "/" + (stem + Suffix(Targets[i]))
             == Join(Join(base, Dir(Targets[i])), stem + Suffix(Targets[i]));
    }
  }

  /**
    `remove-api` after a successful `generate-api` for the same route brings
    back every file but the five barrels.
  */
  lemma GenerateThenRemoveRestores(fs: Files, base: string, pascal: string, stem: string, template: Target -> string, p: string)
    requires ExistingTargets(fs, base, stem) == []
    requires forall t :: HasBarrel(t) ==> p != IndexPath(base, t)
    ensures var r := Removed(ApplyAll(fs, GenerationSteps(base, pascal, stem, template)), RemoverPaths(base, stem));
            (p in r <==> p in fs) && (p in fs ==> r[p] == fs[p])
  {
    var g := ApplyAll(fs, GenerationSteps(base, pascal, stem, template));
    var paths := RemoverPaths(base, stem);
    GuardPasses(fs, base, stem);
    SamePaths(base, stem);
    RemovedExactly(g, paths, p);
    if p !in paths {
      forall s | s in GenerationSlots ensures SlotPath(base, stem, s) != p {
        var i :| 0 <= i < |GenerationSlots| && GenerationSlots[i] == s;
        SlotWritten(i);
        if s.TemplateOf? {
          TargetsComplete(s.t);
          var k :| 0 <= k < |Targets| && Targets[k] == s.t;
          assert paths[k] == SlotPath(base, stem, s);
        }
      }
      GenerationElsewhere(fs, base, pascal, stem, template, p);
    }
  }

  /**
    After a successful `generate-api`, the report of `remove-api` for the same
    route deletes the six generated files and skips the types file.
  */
  lemma GenerateThenRemoveReport(fs: Files, base: string, pascal: string, stem: string, template: Target -> string)
    requires ExistingTargets(fs, base, stem) == []
    ensures var log := RemovalLog(ApplyAll(fs, GenerationSteps(base, pascal, stem, template)), RemoverPaths(base, stem));
            && |log| == |Targets|
            && forall i :: 0 <= i < |Targets| ==>
                 log[i] == (if Targets[i] == Types then Skipped(RemoverPaths(base, stem)[i]) else Deleted(RemoverPaths(base, stem)[i]))
  {
    var g := ApplyAll(fs, GenerationSteps(base, pascal, stem, template));
    var paths := RemoverPaths(base, stem);
    GuardPasses(fs, base, stem);
    SamePaths(base, stem);
    RemovalReport(g, base, stem);
    GenerationSkipsTypes(fs, base, pascal, stem, template);
    forall i | 0 <= i < |Targets| && Targets[i] != Types ensures paths[i] in g {
      GenerationWritesTemplate(fs, base, pascal, stem, template, Targets[i]);
    }
  }

  /** `remove-api` leaves the barrels alone: they still import and export the classes of the deleted files. */
  lemma RemoveKeepsRegistrations(fs: Files, base: string, route: string, template: Target -> string, t: Target)
    requires NameList(route) && HasBarrel(t)
    ensures var pascal := PascalCase(route);
            var stem := KebabCase(route);
            var r := Removed(ApplyAll(fs, GenerationSteps(base, pascal, stem, template)), RemoverPaths(base, stem));
            IndexPath(base, t) in r && Registered(r[IndexPath(base, t)], t, pascal, stem)
  {
    var pascal := PascalCase(route);
    var stem := KebabCase(route);
    var g := ApplyAll(fs, GenerationSteps(base, pascal, stem, template));
    GenerationRegisters(fs, base, route, template, t);
    BarrelNotTarget(base, stem, t);
    RemovedExactly(g, RemoverPaths(base, stem), IndexPath(base, t));
  }

  /** No barrel is among the files `remove-api` deletes. */
  lemma BarrelNotTarget(base: string, stem: string, t: Target)
    ensures IndexPath(base, t) !in RemoverPaths(base, stem)
  {
    SamePaths(base, stem);
    forall i | 0 <= i < |Targets| ensures GeneratorPaths(base, stem)[i] != IndexPath(base, t) {
      PathsDiffer(base, Targets[i], stem + Suffix(Targets[i]), t, "index.ts");
    }
  }

  // ---------------------------------------------------------------------------
  // The two scripts over a mutable file system
  // ---------------------------------------------------------------------------

  datatype Generation = MissingRoute | AlreadyExists(existing: seq<Target>) | Generated(pascal: string, stem: string)

  datatype Cleanup = NoRoute | Cancelled | CleanedUp(report: seq<Removal>)

  /** The project directory the scripts read and write. */
  class Workspace {
    var files: Files

    constructor (initial: Files)
      ensures files == initial
    {
      files := initial;
    }

    /** `fs.writeFileSync(path, text)`. */
    method WriteFile(path: string, text: string)
      modifies this
      ensures files == old(files)[path := text]
    {
      files := files[path := text];
    }

    /** `updateIndexFile(path, className, fileName)`. */
    method UpdateIndexFileAt(path: string, className: string, fileName: string)
      modifies this
      ensures files == Apply(old(files), RegisterClass(path, className, fileName))
    {
      var content := "";
      if path in files {
        content := files[path];
      }
      var importLine := ImportLine(className, fileName);
      if !Contains(content, importLine) {
        content := importLine + "\n" + content;
      }
      content := WithExport(content, className, ", ", className);
      files := files[path := content];
    }

    /** `updateModelIndexFile(path, className, fileName)`, with the comma in the rewritten list. */
    method UpdateModelIndexFileAt(path: string, className: string, fileName: string)
      modifies this
      ensures files == Apply(old(files), RegisterModel(path, className, fileName))
    {
      var content := "";
      if path in files {
        content := files[path];
      }
      var importLine := ImportLine(ModelNames(className), fileName);
      if !Contains(content, importLine) {
        content := importLine + "\n" + content;
      }
      content := WithExport(content, className, ", ", ModelNames(className));
      files := files[path := content];
    }

    /** One write of the script: a template file or a barrel update. */
    method Perform(st: Step)
      modifies this
      ensures files == Apply(old(files), st)
    {
      match st
      case WriteTemplate(path, text) => WriteFile(path, text);
      case RegisterClass(path, className, fileName) => UpdateIndexFileAt(path, className, fileName);
      case RegisterModel(path, className, fileName) => UpdateModelIndexFileAt(path, className, fileName);
    }

    /**
      `generate-api args`: refuses a missing route name, then refuses when
      any of the seven target files exists, and otherwise performs the
      writes of `GenerationSteps` one after the other, in the script's order.
    */
    method Generate(args: seq<string>, base: string, template: Target -> string) returns (outcome: Generation)
      modifies this
      ensures GeneratorRoute(args).None? ==> outcome == MissingRoute && files == old(files)
      ensures GeneratorRoute(args).Some? ==>
                var route := GeneratorRoute(args).value;
                var existing := ExistingTargets(old(files), base, KebabCase(route));
                if existing != [] then outcome == AlreadyExists(existing) && files == old(files)
                else outcome == Generated(PascalCase(route), KebabCase(route))
                     && files == ApplyAll(old(files), GenerationSteps(base, PascalCase(route), KebabCase(route), template))
    {
      var routeName := GeneratorRoute(args);
      if routeName.None? {
        return MissingRoute;
      }
      var route := routeName.value;
      var pascal := PascalCase(route);
      var stem := KebabCase(route);
      var existing := ExistingTargets(files, base, stem);
      if existing != [] {
        return AlreadyExists(existing);
      }
      var steps := GenerationSteps(base, pascal, stem, template);
      ghost var before := files;
      Perform(steps[0]);
      Advance(before, steps, 0, files);
      before := files;
      Perform(steps[1]);
      Advance(before, steps, 1, files);
      before := files;
      Perform(steps[2]);
      Advance(before, steps, 2, files);
      before := files;
      Perform(steps[3]);
      Advance(before, steps, 3, files);
      before := files;
      Perform(steps[4]);
      Advance(before, steps, 4, files);
      before := files;
      Perform(steps[5]);
      Advance(before, steps, 5, files);
      before := files;
      Perform(steps[6]);
      Advance(before, steps, 6, files);
      before := files;
      Perform(steps[7]);
      Advance(before, steps, 7, files);
      before := files;
      Perform(steps[8]);
      Advance(before, steps, 8, files);
      before := files;
      Perform(steps[9]);
      Advance(before, steps, 9, files);
      before := files;
      Perform(steps[10]);
      Advance(before, steps, 10, files);
      ApplyFromEnd(files, steps);
      outcome := Generated(pascal, stem);
    }

    /** The `forEach` of `remove-api`: delete each path that exists, report each one. */
    method DeleteEach(paths: seq<string>) returns (report: seq<Removal>)
      modifies this
      ensures files == Removed(old(files), paths)
      ensures report == RemovalLog(old(files), paths)
    {
      report := [];
      var i := 0;
      while i < |paths|
        invariant 0 <= i <= |paths|
        invariant files == Removed(old(files), paths[..i])
        invariant report == RemovalLog(old(files), paths[..i])
      {
        var p := paths[i];
        assert paths[..i + 1][..i] == paths[..i];
        if p in files {
          files := files - {p};
          report := report + [Deleted(p)];
        } else {
          report := report + [Skipped(p)];
        }
        i := i + 1;
      }
      assert paths[..i] == paths;
    }

    /**
      `remove-api args` with the user's answer: refuses when no argument is a
      route name, does nothing unless the answer confirms, and otherwise
      deletes whichever of the seven target files exist.
    */
    method Remove(args: seq<string>, base: string, answer: string) returns (outcome: Cleanup)
      modifies this
      ensures RemoverRoute(args).None? ==> outcome == NoRoute && files == old(files)
      ensures RemoverRoute(args).Some? && !Confirmed(answer) ==> outcome == Cancelled && files == old(files)
      ensures RemoverRoute(args).Some? && Confirmed(answer) ==>
                var paths := RemoverPaths(base, ToLower(RemoverRoute(args).value));
                outcome == CleanedUp(RemovalLog(old(files), paths)) && files == Removed(old(files), paths)
    {
      var routeName := RemoverRoute(args);
      if routeName.None? {
        return NoRoute;
      }
      var stem := ToLower(routeName.value);
      if !Confirmed(answer) {
        return Cancelled;
      }
      var report := DeleteEach(RemoverPaths(base, stem));
      outcome := CleanedUp(report);
    }
  }
}
