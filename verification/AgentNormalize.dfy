/** What a KargoAgent drift check forgives before comparing (kargoagent/kargoagent.go, kargoagent/custom_size.go). */
module AgentNormalize {
  import opened Wrappers
  import opened Reason
  import opened GoValues
  import opened Equate

  /** The part of the parameters the platform stores; `rest` is what no rule below touches. */
  datatype Data = Data(
    namespace: string, size: string, argocdNamespace: string, targetVersion: string, kustomization: string,
    akuityManaged: Option<bool>, maintenanceMode: Option<bool>, maintenanceExpiry: Option<string>,
    podInheritMetadata: Option<bool>, autoscaler: Option<string>, customSize: Option<string>, rest: string)

  /** YAML equivalence of two kustomizations, and the generator of a custom size's patches for a named agent (None when
      it refuses). */
  datatype Yaml = Yaml(equivalent: (string, string) -> bool, generate: (string, string, string) -> Option<string>)

  predicate SameText(y: Yaml, k: string) { y.equivalent(k, k) }

  ghost predicate Reflexive(y: Yaml) {
    forall k :: SameText(y, k)
  }

  class Parameters {
    var data: Data

    constructor (data: Data)
      ensures this.data == data
    {
      this.data := data;
    }
  }

  /** Case folding as far as it reaches ASCII letters: the long s and the Kelvin sign fold into them too. */
  function Fold(c: char): char {
    if 'A' <= c <= 'Z' then (c as int + 32) as char
    else if c == '\U{017F}' then 's'
    else if c == '\U{212A}' then 'k'
    else c
  }

  function Folded(s: string): string {
    seq(|s|, i requires 0 <= i < |s| => Fold(s[i]))
  }

  predicate KnownSize(size: string) {
    size in ["", "small", "medium", "large", "auto"]
  }

  predicate IsCustom(size: string) {
    Folded(size) == "custom"
  }

  lemma CustomIsUnknown(size: string)
    ensures IsCustom(size) ==> !KnownSize(size)
  {
    if KnownSize(size) {
      assert |Folded(size)| == |size|;
      assert size == "medium" ==> Folded(size)[0] == 'm';
    }
  }

  /** Custom in any case, the long s counting as an s. */
  lemma CustomSpelled(size: string)
    ensures IsCustom(size) <==>
      && |size| == 6 && size[0] in {'c', 'C'} && size[1] in {'u', 'U'} && size[2] in {'s', 'S', '\U{017F}'}
      && size[3] in {'t', 'T'} && size[4] in {'o', 'O'} && size[5] in {'m', 'M'}
  {
    if |size| == 6 {
      assert Folded(size) == [Fold(size[0]), Fold(size[1]), Fold(size[2]), Fold(size[3]), Fold(size[4]), Fold(size[5])];
    } else {
      assert |Folded(size)| != |"custom"|;
    }
  }

  predicate Managed(o: Data) { o.akuityManaged == Some(true) }

  function OrElse<T>(mine: Option<T>, theirs: Option<T>): Option<T> {
    if mine.None? then theirs else mine
  }

  // ----- As a value -----

  function Defaulted(d: Data, o: Data): Data {
    d.(namespace := if d.namespace == "" then o.namespace else d.namespace,
       size := if d.size == "" then o.size else d.size,
       argocdNamespace := if d.argocdNamespace == "" then o.argocdNamespace else d.argocdNamespace,
       targetVersion := if d.targetVersion == "" then o.targetVersion else d.targetVersion)
  }

  function Clamped(d: Data, o: Data): Data {
    d.(maintenanceMode := o.maintenanceMode, maintenanceExpiry := o.maintenanceExpiry,
       argocdNamespace := if Managed(o) then o.argocdNamespace else d.argocdNamespace,
       targetVersion := if Managed(o) then o.targetVersion else d.targetVersion)
  }

  /** A custom size is a large agent with generated patches. */
  function CustomSize(name: string, d: Data, y: Yaml): Result<Data, Error> {
    if !IsCustom(d.size) then
      if d.customSize.Some? then Err(Plain("customAgentSizeConfig requires size custom")) else Ok(d)
    else if Managed(d) then Err(Plain("size custom is not allowed for akuityManaged Kargo agents"))
    else if d.customSize.None? then Err(Plain("size custom requires customAgentSizeConfig"))
    else if d.autoscaler.Some? then Err(Plain("size custom cannot be combined with autoscalerConfig"))
    else match y.generate(name, d.customSize.value, d.kustomization)
      case Some(k) => Ok(d.(size := "large", kustomization := k, customSize := None))
      case None => Err(Plain("customAgentSizeConfig"))
  }

  /** The drift check ignores the error: a refused size stays as written. */
  function CustomProjected(name: string, d: Data, y: Yaml): Data {
    match CustomSize(name, d, y)
    case Ok(sent) => sent
    case Err(_) => d
  }

  function SizeClamped(d: Data, o: Data): Data {
    if !KnownSize(d.size) && o.size != "" then d.(size := o.size) else d
  }

  function Rendered(d: Data, o: Data, y: Yaml): Data {
    if y.equivalent(d.kustomization, o.kustomization) then d.(kustomization := o.kustomization) else d
  }

  function Filled(d: Data, o: Data): Data {
    d.(podInheritMetadata := OrElse(d.podInheritMetadata, o.podInheritMetadata),
       autoscaler := OrElse(d.autoscaler, o.autoscaler))
  }

  /** The first half: scalar defaults and what the platform owns. */
  function Absorbed(d: Data, o: Data): Data {
    Clamped(Defaulted(d, o).(akuityManaged := o.akuityManaged), o)
  }

  /** The second half: sizes, kustomization and optional fields. */
  function Settled(d: Data, o: Data, y: Yaml): Data {
    Filled(Rendered(SizeClamped(d, o), o, y), o)
  }

  function Normalized(name: string, d: Data, o: Data, y: Yaml): Data {
    Settled(CustomProjected(name, Absorbed(d, o), y), o, y)
  }

  // ----- In place -----

  method AbsorbScalarDefaults(desired: Parameters, observed: Parameters)
    requires desired != observed
    modifies desired
    ensures desired.data == Defaulted(old(desired.data), observed.data)
  {
    var o := observed.data;
    if desired.data.namespace == "" { desired.data := desired.data.(namespace := o.namespace); }
    if desired.data.size == "" { desired.data := desired.data.(size := o.size); }
    if desired.data.argocdNamespace == "" { desired.data := desired.data.(argocdNamespace := o.argocdNamespace); }
    if desired.data.targetVersion == "" { desired.data := desired.data.(targetVersion := o.targetVersion); }
  }

  method AbsorbServerClamps(desired: Parameters, observed: Parameters)
    requires desired != observed
    modifies desired
    ensures desired.data == Clamped(old(desired.data), observed.data)
  {
    var o := observed.data;
    desired.data := desired.data.(maintenanceMode := o.maintenanceMode, maintenanceExpiry := o.maintenanceExpiry);
    if o.akuityManaged.None? || !o.akuityManaged.value { return; }
    desired.data := desired.data.(argocdNamespace := o.argocdNamespace, targetVersion := o.targetVersion);
  }

  method ProjectCustomSize(name: string, p: Parameters, y: Yaml) returns (err: Option<Error>)
    modifies p
    ensures p.data == CustomProjected(name, old(p.data), y)
    ensures err == match CustomSize(name, old(p.data), y) case Ok(_) => None case Err(e) => Some(e)
  {
    var d := p.data;
    if !IsCustom(d.size) {
      if d.customSize.Some? { return Some(Plain("customAgentSizeConfig requires size custom")); }
      return None;
    }
    if d.akuityManaged.Some? && d.akuityManaged.value {
      return Some(Plain("size custom is not allowed for akuityManaged Kargo agents"));
    }
    if d.customSize.None? { return Some(Plain("size custom requires customAgentSizeConfig")); }
    if d.autoscaler.Some? { return Some(Plain("size custom cannot be combined with autoscalerConfig")); }
    var k := y.generate(name, d.customSize.value, d.kustomization);
    if k.None? { return Some(Plain("customAgentSizeConfig")); }
    p.data := d.(size := "large", kustomization := k.value, customSize := None);
    err := None;
  }

  method AbsorbSizeAndRender(desired: Parameters, observed: Parameters, y: Yaml)
    requires desired != observed
    modifies desired
    ensures desired.data == Settled(old(desired.data), observed.data, y)
  {
    var o := observed.data;
    if !KnownSize(desired.data.size) && o.size != "" && desired.data.size != o.size {
      desired.data := desired.data.(size := o.size);
    }
    if y.equivalent(desired.data.kustomization, o.kustomization) && desired.data.kustomization != o.kustomization {
      desired.data := desired.data.(kustomization := o.kustomization);
    }
    if desired.data.podInheritMetadata.None? && o.podInheritMetadata.Some? {
      desired.data := desired.data.(podInheritMetadata := o.podInheritMetadata);
    }
    if desired.data.autoscaler.None? && o.autoscaler.Some? {
      desired.data := desired.data.(autoscaler := o.autoscaler);
    }
  }

  method Normalize(name: string, desired: Parameters, observed: Parameters, y: Yaml)
    requires desired != observed
    modifies desired
    ensures desired.data == Normalized(name, old(desired.data), observed.data, y)
  {
    AbsorbScalarDefaults(desired, observed);
    desired.data := desired.data.(akuityManaged := observed.data.akuityManaged);
    AbsorbServerClamps(desired, observed);
    var _ := ProjectCustomSize(name, desired, y);
    AbsorbSizeAndRender(desired, observed, y);
  }

  // ----- What is forgiven -----

  lemma AbsorbedExactly(d: Data, o: Data)
    ensures var n := Absorbed(d, o);
      && (n.namespace == o.namespace <==> d.namespace in {"", o.namespace})
      && (n.argocdNamespace == o.argocdNamespace <==> d.argocdNamespace in {"", o.argocdNamespace} || Managed(o))
      && (n.targetVersion == o.targetVersion <==> d.targetVersion in {"", o.targetVersion} || Managed(o))
      && n.akuityManaged == o.akuityManaged
      && n.maintenanceMode == o.maintenanceMode && n.maintenanceExpiry == o.maintenanceExpiry
      && n.kustomization == d.kustomization && n.size == (if d.size == "" then o.size else d.size)
      && n.podInheritMetadata == d.podInheritMetadata && n.autoscaler == d.autoscaler
      && n.customSize == d.customSize && n.rest == d.rest
  {}

  lemma SettledExactly(d: Data, o: Data, y: Yaml)
    requires Reflexive(y)
    ensures var n := Settled(d, o, y);
      && (n.size == o.size <==> d.size == o.size || (!KnownSize(d.size) && o.size != ""))
      && (n.kustomization == o.kustomization <==> y.equivalent(d.kustomization, o.kustomization))
      && (n.podInheritMetadata == o.podInheritMetadata <==> d.podInheritMetadata in {None, o.podInheritMetadata})
      && (n.autoscaler == o.autoscaler <==> d.autoscaler in {None, o.autoscaler})
      && n == d.(size := n.size, kustomization := n.kustomization, podInheritMetadata := n.podInheritMetadata,
                 autoscaler := n.autoscaler)
  {
    assert SameText(y, o.kustomization);
  }

  /** The custom projection touches only the size, the kustomization and the custom size itself. */
  lemma ProjectionTouches(name: string, d: Data, y: Yaml)
    ensures var s := CustomProjected(name, d, y);
      s == d.(size := s.size, kustomization := s.kustomization, customSize := s.customSize)
    ensures !IsCustom(d.size) ==> CustomProjected(name, d, y) == d
    ensures CustomProjected(name, d, y) != d ==> CustomProjected(name, d, y).size == "large"
  {}

  /** A value the user pinned stays visible as drift, except exactly where the platform owns the field; sizes and
      kustomizations are judged as they are sent. */
  lemma ForgivenExactly(name: string, d: Data, o: Data, y: Yaml)
    requires Reflexive(y)
    ensures var (n, s) := (Normalized(name, d, o, y), CustomProjected(name, Absorbed(d, o), y));
      && (n.namespace == o.namespace <==> d.namespace in {"", o.namespace})
      && (n.argocdNamespace == o.argocdNamespace <==> d.argocdNamespace in {"", o.argocdNamespace} || Managed(o))
      && (n.targetVersion == o.targetVersion <==> d.targetVersion in {"", o.targetVersion} || Managed(o))
      && n.akuityManaged == o.akuityManaged
      && n.maintenanceMode == o.maintenanceMode && n.maintenanceExpiry == o.maintenanceExpiry
      && (n.podInheritMetadata == o.podInheritMetadata <==> d.podInheritMetadata in {None, o.podInheritMetadata})
      && (n.autoscaler == o.autoscaler <==> d.autoscaler in {None, o.autoscaler})
      && (n.size == o.size <==> s.size == o.size || (!KnownSize(s.size) && o.size != ""))
      && (n.kustomization == o.kustomization <==> y.equivalent(s.kustomization, o.kustomization))
      && n.customSize == s.customSize && n.rest == d.rest
    ensures !IsCustom(Absorbed(d, o).size) ==>
      var n := Normalized(name, d, o, y);
      && (n.size == o.size <==> d.size in {"", o.size} || (!KnownSize(d.size) && o.size != ""))
      && (n.kustomization == o.kustomization <==> y.equivalent(d.kustomization, o.kustomization))
      && n.customSize == d.customSize
  {
    AbsorbedExactly(d, o);
    ProjectionTouches(name, Absorbed(d, o), y);
    SettledExactly(CustomProjected(name, Absorbed(d, o), y), o, y);
    hide Absorbed;
    hide CustomProjected;
    hide Settled;
  }

  /** So the four sizes the platform knows stay visible as drift, and any other size but none and custom is whatever the
      platform shows. */
  lemma SizesExactly(name: string, d: Data, o: Data, y: Yaml)
    requires Reflexive(y) && d.size != "" && !IsCustom(d.size)
    ensures Normalized(name, d, o, y).size == o.size
       <==> d.size == o.size || (d.size !in {"small", "medium", "large", "auto"} && o.size != "")
  {
    ForgivenExactly(name, d, o, y);
    hide Normalized;
  }

  // ----- Checking again -----

  lemma AbsorbingTwice(d: Data, n: Data, o: Data)
    requires n.namespace == Absorbed(d, o).namespace && n.argocdNamespace == Absorbed(d, o).argocdNamespace
    requires n.targetVersion == Absorbed(d, o).targetVersion && n.akuityManaged == o.akuityManaged
    requires n.maintenanceMode == o.maintenanceMode && n.maintenanceExpiry == o.maintenanceExpiry
    requires n.size == "" ==> o.size == ""
    ensures Absorbed(n, o) == n
  {}

  lemma SettlingTwice(d: Data, o: Data, y: Yaml)
    requires Reflexive(y)
    ensures Settled(Settled(d, o, y), o, y) == Settled(d, o, y)
  {
    SettledExactly(d, o, y);
    assert SameText(y, o.kustomization);
    var n := Settled(d, o, y);
    assert SizeClamped(n, o) == n;
    assert Rendered(n, o, y) == n;
  }

  /** The first check leaves a custom size behind that the second one can project: the size was refused or shown back
      by the platform, and the kustomization is now the platform's. */
  predicate ProjectsLater(name: string, d: Data, o: Data, y: Yaml) {
    var a := Absorbed(d, o);
    var s := CustomProjected(name, a, y);
    var size := if !KnownSize(s.size) && o.size != "" then o.size else s.size;
    var k := if y.equivalent(s.kustomization, o.kustomization) then o.kustomization else s.kustomization;
    && IsCustom(size) && !Managed(o) && s.customSize.Some?
    && d.autoscaler.None? && o.autoscaler.None?
    && y.generate(name, s.customSize.value, k).Some?
  }

  lemma LargeStays(d: Data, o: Data, y: Yaml)
    requires d.size == "large"
    ensures Settled(d, o, y).size == "large"
  {}

  lemma SettledFields(s: Data, o: Data, y: Yaml)
    ensures var n := Settled(s, o, y);
      && n.size == (if !KnownSize(s.size) && o.size != "" then o.size else s.size)
      && n.kustomization
         == (if y.equivalent(s.kustomization, o.kustomization) then o.kustomization else s.kustomization)
      && n.autoscaler == OrElse(s.autoscaler, o.autoscaler)
      && n.customSize == s.customSize && n.akuityManaged == s.akuityManaged
  {}

  lemma ProjectsExactly(name: string, n: Data, y: Yaml)
    ensures CustomProjected(name, n, y) != n <==>
      && IsCustom(n.size) && !Managed(n) && n.customSize.Some? && n.autoscaler.None?
      && y.generate(name, n.customSize.value, n.kustomization).Some?
  {
    CustomIsUnknown("large");
  }

  lemma ProjectsLaterExactly(name: string, d: Data, o: Data, y: Yaml)
    ensures ProjectsLater(name, d, o, y)
       <==> CustomProjected(name, Normalized(name, d, o, y), y) != Normalized(name, d, o, y)
  {
    var a := Absorbed(d, o);
    AbsorbedExactly(d, o);
    var s := CustomProjected(name, a, y);
    ProjectionTouches(name, a, y);
    hide Absorbed;
    hide CustomProjected;
    var n := Settled(s, o, y);
    SettledFields(s, o, y);
    ProjectsExactly(name, n, y);
    hide Settled;
  }

  /** Checking again against the same platform state changes nothing, except exactly in that case. */
  lemma NormalizeIdempotentExactly(name: string, d: Data, o: Data, y: Yaml)
    requires Reflexive(y)
    ensures Normalized(name, Normalized(name, d, o, y), o, y) == Normalized(name, d, o, y)
       <==> !ProjectsLater(name, d, o, y)
  {
    var a := Absorbed(d, o);
    var s := CustomProjected(name, a, y);
    var n := Settled(s, o, y);
    AbsorbedExactly(d, o);
    ProjectionTouches(name, a, y);
    SettledExactly(s, o, y);
    assert n.size == "" ==> o.size == "";
    AbsorbingTwice(d, n, o);
    SettlingTwice(s, o, y);
    ProjectsLaterExactly(name, d, o, y);
    if CustomProjected(name, n, y) != n {
      ProjectionTouches(name, n, y);
      LargeStays(CustomProjected(name, n, y), o, y);
      CustomIsUnknown("large");
    }
  }

  /** That case is real: an unknown size beside a custom size config, against a platform that reports `custom`. */
  lemma SecondCheckCanProject()
    ensures exists d, o, y :: Reflexive(y) && ProjectsLater("agent", d, o, y)
  {
    var y := Yaml((a, b) => a == b, (name, cfg, k) => Some(k));
    var o := Data("", "custom", "", "", "", None, None, None, None, None, None, "");
    var d := o.(size := "xlarge", customSize := Some("cfg"));
    assert forall k :: SameText(y, k);
    assert |Folded("xlarge")| == 6 && Folded("xlarge")[0] == 'x';
    assert Folded("custom") == "custom";
    assert ProjectsLater("agent", d, o, y);
  }

  /** In particular never when the platform reports a size of its own that is not custom. */
  lemma NormalizeIdempotent(name: string, d: Data, o: Data, y: Yaml)
    requires Reflexive(y) && o.size != "" && !IsCustom(o.size)
    ensures Normalized(name, Normalized(name, d, o, y), o, y) == Normalized(name, d, o, y)
  {
    NormalizeIdempotentExactly(name, d, o, y);
    CustomIsUnknown(CustomProjected(name, Absorbed(d, o), y).size);
    hide Absorbed;
    hide CustomProjected;
    hide Normalized;
  }

  // ----- An echo is up to date -----

  /** The platform shows what was sent: every pinned field, up to the fields it owns and the rendering of YAML. */
  predicate Echoes(d: Data, sent: Data, o: Data, y: Yaml) {
    && o.rest == d.rest && o.customSize == sent.customSize
    && d.namespace in {"", o.namespace}
    && (Managed(o) || (d.argocdNamespace in {"", o.argocdNamespace} && d.targetVersion in {"", o.targetVersion}))
    && (sent.size in {"", o.size} || (!KnownSize(sent.size) && o.size != ""))
    && (IsCustom(d.size) ==> !Managed(o))
    && y.equivalent(sent.kustomization, o.kustomization)
    && d.podInheritMetadata in {None, o.podInheritMetadata} && d.autoscaler in {None, o.autoscaler}
  }

  /** What the check projects is what was sent, but for a size left to the platform. */
  lemma ProjectsAsSent(name: string, d: Data, sent: Data, o: Data, y: Yaml)
    requires CustomSize(name, d, y) == Ok(sent) && (IsCustom(d.size) ==> !Managed(o))
    ensures var s := CustomProjected(name, Absorbed(d, o), y);
      && s.kustomization == sent.kustomization && s.customSize == sent.customSize
      && s.size == if sent.size == "" then o.size else sent.size
  {
    AbsorbedExactly(d, o);
    hide Absorbed;
  }

  /** Normalising leaves the observed side exactly when that is an echo of what was sent; an agent under management is
      no platform for a custom size. */
  lemma EchoIsForgiven(name: string, d: Data, sent: Data, o: Data, y: Yaml)
    requires Reflexive(y) && CustomSize(name, d, y) == Ok(sent) && (IsCustom(d.size) ==> !Managed(o))
    ensures Normalized(name, d, o, y) == o <==> Echoes(d, sent, o, y)
  {
    ForgivenExactly(name, d, o, y);
    ProjectsAsSent(name, d, sent, o, y);
    hide Absorbed;
    hide Normalized;
    hide CustomProjected;
    hide IsCustom;
  }

  // ----- The comparison -----

  function Pointer<T>(v: Option<T>, encode: T -> Value): Value { if v.Some? then Ptr(encode(v.value)) else NilPtr }

  /** The parameters as the comparison walks them; texts no rule looks into stand for whole subtrees. */
  function Encode(d: Data): Value {
    Struct(map[
      "namespace" := Text(d.namespace), "size" := Label(d.size), "argocdNamespace" := Text(d.argocdNamespace),
      "targetVersion" := Text(d.targetVersion), "kustomization" := Text(d.kustomization),
      "akuityManaged" := Pointer(d.akuityManaged, b => Bool(b)),
      "maintenanceMode" := Pointer(d.maintenanceMode, b => Bool(b)),
      "maintenanceModeExpiry" := Pointer(d.maintenanceExpiry, s => Text(s)),
      "podInheritMetadata" := Pointer(d.podInheritMetadata, b => Bool(b)),
      "autoscalerConfig" := Pointer(d.autoscaler, s => Label(s)),
      "customAgentSizeConfig" := Pointer(d.customSize, s => Label(s)),
      "rest" := Label(d.rest)])
  }

  predicate UpToDate(name: string, d: Data, o: Data, y: Yaml, quantity: string -> Option<real>) {
    Equal(Encode(Normalized(name, d, o, y)), Encode(o), quantity)
  }

  method EvaluateDrift(name: string, d: Data, o: Data, y: Yaml, quantity: string -> Option<real>)
    returns (upToDate: bool)
    ensures upToDate <==> UpToDate(name, d, o, y, quantity)
  {
    var desired := new Parameters(d);
    var observed := new Parameters(o);
    Normalize(name, desired, observed, y);
    upToDate := Equal(Encode(desired.data), Encode(observed.data), quantity);
  }

  /** Texts that compare equal: the same, or one quantity. */
  predicate SameWords(a: string, b: string, quantity: string -> Option<real>) {
    a == b || SameQuantity(a, b, quantity)
  }

  predicate SameFlag(a: Option<bool>, b: Option<bool>) { (a == Some(true)) == (b == Some(true)) }

  predicate Vacant(a: Option<string>) { a.None? || a.value == "" }

  predicate SameLabel(a: Option<string>, b: Option<string>) { a == b || (Vacant(a) && Vacant(b)) }

  predicate SameWordsIfAny(a: Option<string>, b: Option<string>, quantity: string -> Option<real>) {
    SameLabel(a, b) || (a.Some? && b.Some? && SameQuantity(a.value, b.value, quantity))
  }

  lemma TextsEqual(a: string, b: string, q: string -> Option<real>)
    ensures Equal(Text(a), Text(b), q) <==> SameWords(a, b, q)
    ensures Equal(Label(a), Label(b), q) <==> a == b
  {}

  lemma PointerEqual(x: Option<Value>, y: Option<Value>, q: string -> Option<real>)
    ensures Equal(Pointer(x, v => v), Pointer(y, v => v), q) <==>
      || ((x.None? || IsZero(x.value)) && (y.None? || IsZero(y.value)))
      || (x.Some? && y.Some? && Equal(x.value, y.value, q))
  {}

  lemma FlagsEqual(a: Option<bool>, b: Option<bool>, q: string -> Option<real>)
    ensures Equal(Pointer(a, v => Bool(v)), Pointer(b, v => Bool(v)), q) <==> SameFlag(a, b)
  {}

  lemma OptionalTextsEqual(x: Option<string>, y: Option<string>, q: string -> Option<real>)
    ensures Equal(Pointer(x, v => Label(v)), Pointer(y, v => Label(v)), q) <==> SameLabel(x, y)
    ensures Equal(Pointer(x, v => Text(v)), Pointer(y, v => Text(v)), q) <==> SameWordsIfAny(x, y, q)
  {
    if x.Some? && y.Some? { TextsEqual(x.value, y.value, q); }
    PointerEqual(if x.Some? then Some(Label(x.value)) else None, if y.Some? then Some(Label(y.value)) else None, q);
    PointerEqual(if x.Some? then Some(Text(x.value)) else None, if y.Some? then Some(Text(y.value)) else None, q);
  }

  lemma StructsEqual(fs: map<string, Value>, gs: map<string, Value>, q: string -> Option<real>)
    requires fs.Keys == gs.Keys
    ensures Equal(Struct(fs), Struct(gs), q) <==> forall f | f in fs :: Equal(fs[f], gs[f], q)
  {}

  const FIELDS := {"namespace", "size", "argocdNamespace", "targetVersion", "kustomization", "akuityManaged",
    "maintenanceMode", "maintenanceModeExpiry", "podInheritMetadata", "autoscalerConfig", "customAgentSizeConfig",
    "rest"}

  lemma EncodedKeys(d: Data)
    ensures Encode(d).Struct? && Encode(d).fields.Keys == FIELDS
  {
    hide Pointer;
  }

  lemma EncodedFields(d: Data)
    requires Encode(d).fields.Keys == FIELDS
    ensures var fs := Encode(d).fields;
      && fs["namespace"] == Text(d.namespace) && fs["size"] == Label(d.size)
      && fs["argocdNamespace"] == Text(d.argocdNamespace) && fs["targetVersion"] == Text(d.targetVersion)
      && fs["kustomization"] == Text(d.kustomization) && fs["akuityManaged"] == Pointer(d.akuityManaged, v => Bool(v))
      && fs["maintenanceMode"] == Pointer(d.maintenanceMode, v => Bool(v))
      && fs["maintenanceModeExpiry"] == Pointer(d.maintenanceExpiry, v => Text(v))
      && fs["podInheritMetadata"] == Pointer(d.podInheritMetadata, v => Bool(v))
      && fs["autoscalerConfig"] == Pointer(d.autoscaler, v => Label(v))
      && fs["customAgentSizeConfig"] == Pointer(d.customSize, v => Label(v)) && fs["rest"] == Label(d.rest)
  {
    hide Pointer;
  }

  lemma EveryField(holds: string -> bool)
    ensures (forall f | f in FIELDS :: holds(f)) <==>
      && holds("namespace") && holds("size") && holds("argocdNamespace") && holds("targetVersion")
      && holds("kustomization") && holds("akuityManaged") && holds("maintenanceMode") && holds("maintenanceModeExpiry")
      && holds("podInheritMetadata") && holds("autoscalerConfig") && holds("customAgentSizeConfig") && holds("rest")
  {}

  lemma LeavesEqual(a: Data, b: Data, q: string -> Option<real>)
    ensures Equal(Text(a.namespace), Text(b.namespace), q) <==> SameWords(a.namespace, b.namespace, q)
    ensures Equal(Text(a.argocdNamespace), Text(b.argocdNamespace), q)
       <==> SameWords(a.argocdNamespace, b.argocdNamespace, q)
    ensures Equal(Text(a.targetVersion), Text(b.targetVersion), q) <==> SameWords(a.targetVersion, b.targetVersion, q)
    ensures Equal(Text(a.kustomization), Text(b.kustomization), q) <==> SameWords(a.kustomization, b.kustomization, q)
    ensures Equal(Label(a.size), Label(b.size), q) <==> a.size == b.size
    ensures Equal(Label(a.rest), Label(b.rest), q) <==> a.rest == b.rest
  {
    TextsEqual(a.namespace, b.namespace, q);
    TextsEqual(a.argocdNamespace, b.argocdNamespace, q);
    TextsEqual(a.targetVersion, b.targetVersion, q);
    TextsEqual(a.kustomization, b.kustomization, q);
    TextsEqual(a.size, b.size, q);
    TextsEqual(a.rest, b.rest, q);
    hide Equal;
    hide SameWords;
  }

  lemma FieldsEqual(fs: map<string, Value>, gs: map<string, Value>, q: string -> Option<real>)
    requires fs.Keys == FIELDS && gs.Keys == FIELDS
    ensures Equal(Struct(fs), Struct(gs), q) <==>
      && Equal(fs["namespace"], gs["namespace"], q) && Equal(fs["size"], gs["size"], q)
      && Equal(fs["argocdNamespace"], gs["argocdNamespace"], q) && Equal(fs["targetVersion"], gs["targetVersion"], q)
      && Equal(fs["kustomization"], gs["kustomization"], q) && Equal(fs["akuityManaged"], gs["akuityManaged"], q)
      && Equal(fs["maintenanceMode"], gs["maintenanceMode"], q)
      && Equal(fs["maintenanceModeExpiry"], gs["maintenanceModeExpiry"], q)
      && Equal(fs["podInheritMetadata"], gs["podInheritMetadata"], q)
      && Equal(fs["autoscalerConfig"], gs["autoscalerConfig"], q)
      && Equal(fs["customAgentSizeConfig"], gs["customAgentSizeConfig"], q) && Equal(fs["rest"], gs["rest"], q)
  {
    StructsEqual(fs, gs, q);
    hide Equal;
    var holds := f => f in fs && f in gs && Equal(fs[f], gs[f], q);
    assert (forall f | f in fs :: Equal(fs[f], gs[f], q)) <==> forall f | f in FIELDS :: holds(f);
    EveryField(holds);
  }

  /** The comparison field by field: texts up to quantities, flags up to leaving false out, optional texts up to leaving
      the empty one out. */
  lemma ComparedByField(a: Data, b: Data, q: string -> Option<real>)
    ensures Equal(Encode(a), Encode(b), q) <==>
      && SameWords(a.namespace, b.namespace, q) && a.size == b.size
      && SameWords(a.argocdNamespace, b.argocdNamespace, q) && SameWords(a.targetVersion, b.targetVersion, q)
      && SameWords(a.kustomization, b.kustomization, q) && SameFlag(a.akuityManaged, b.akuityManaged)
      && SameFlag(a.maintenanceMode, b.maintenanceMode)
      && SameWordsIfAny(a.maintenanceExpiry, b.maintenanceExpiry, q)
      && SameFlag(a.podInheritMetadata, b.podInheritMetadata) && SameLabel(a.autoscaler, b.autoscaler)
      && SameLabel(a.customSize, b.customSize) && a.rest == b.rest
  {
    EncodedKeys(a);
    EncodedKeys(b);
    EncodedFields(a);
    EncodedFields(b);
    FieldsEqual(Encode(a).fields, Encode(b).fields, q);
    FlagsEqual(a.akuityManaged, b.akuityManaged, q);
    FlagsEqual(a.maintenanceMode, b.maintenanceMode, q);
    FlagsEqual(a.podInheritMetadata, b.podInheritMetadata, q);
    OptionalTextsEqual(a.maintenanceExpiry, b.maintenanceExpiry, q);
    OptionalTextsEqual(a.autoscaler, b.autoscaler, q);
    OptionalTextsEqual(a.customSize, b.customSize, q);
    LeavesEqual(a, b, q);
    hide Encode;
    hide Equal;
    hide Pointer;
    hide SameFlag;
    hide SameLabel;
    hide SameWords;
    hide SameWordsIfAny;
  }

  lemma NormalizedFields(name: string, d: Data, o: Data, y: Yaml)
    ensures var (n, s) := (Normalized(name, d, o, y), CustomProjected(name, Absorbed(d, o), y));
      && n.namespace == (if d.namespace == "" then o.namespace else d.namespace)
      && n.argocdNamespace == (if Managed(o) || d.argocdNamespace == "" then o.argocdNamespace else d.argocdNamespace)
      && n.targetVersion == (if Managed(o) || d.targetVersion == "" then o.targetVersion else d.targetVersion)
      && n.akuityManaged == o.akuityManaged && n.maintenanceMode == o.maintenanceMode
      && n.maintenanceExpiry == o.maintenanceExpiry && n.customSize == s.customSize && n.rest == d.rest
      && n.size == (if !KnownSize(s.size) && o.size != "" then o.size else s.size)
      && n.kustomization
         == (if y.equivalent(s.kustomization, o.kustomization) then o.kustomization else s.kustomization)
      && n.podInheritMetadata == OrElse(d.podInheritMetadata, o.podInheritMetadata)
      && n.autoscaler == OrElse(d.autoscaler, o.autoscaler)
  {
    ProjectionTouches(name, Absorbed(d, o), y);
    hide CustomProjected;
  }

  /** What is up to date, field by field of what the user wrote: an empty or omitted field always, a text when it is the
      platform's or one quantity with it, fields the platform owns always, and sizes, kustomizations and custom sizes as
      they are sent. */
  lemma UpToDateExactly(name: string, d: Data, o: Data, y: Yaml, q: string -> Option<real>)
    ensures UpToDate(name, d, o, y, q) <==>
      var s := CustomProjected(name, Absorbed(d, o), y);
      && (d.namespace == "" || SameWords(d.namespace, o.namespace, q))
      && (Managed(o) || d.argocdNamespace == "" || SameWords(d.argocdNamespace, o.argocdNamespace, q))
      && (Managed(o) || d.targetVersion == "" || SameWords(d.targetVersion, o.targetVersion, q))
      && (s.size == o.size || (!KnownSize(s.size) && o.size != ""))
      && (y.equivalent(s.kustomization, o.kustomization) || SameWords(s.kustomization, o.kustomization, q))
      && (d.podInheritMetadata.None? || SameFlag(d.podInheritMetadata, o.podInheritMetadata))
      && (d.autoscaler.None? || SameLabel(d.autoscaler, o.autoscaler))
      && SameLabel(s.customSize, o.customSize) && d.rest == o.rest
  {
    NormalizedFields(name, d, o, y);
    ComparedByField(Normalized(name, d, o, y), o, q);
    hide Normalized;
    hide CustomProjected;
    hide Absorbed;
    hide Equal;
    hide Encode;
    hide SameQuantity;
  }

  /** After a write, a platform that echoes what was sent is up to date. */
  lemma EchoIsUpToDate(name: string, d: Data, sent: Data, o: Data, y: Yaml, quantity: string -> Option<real>)
    requires Reflexive(y) && CustomSize(name, d, y) == Ok(sent) && Echoes(d, sent, o, y)
    ensures UpToDate(name, d, o, y, quantity)
  {
    EchoIsForgiven(name, d, sent, o, y);
    EqualReflexive(Encode(o), quantity);
    hide Encode;
  }
}
