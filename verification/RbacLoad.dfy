/** LoadAndApply and readManifests of internal/rbac/loader.go: every document of every file
    is read and validated before the first row is written. */
module RbacLoad {
  import opened Base
  import opened Rbac
  import opened RbacApply

  /** A YAML document as the decoder leaves it. */
  datatype Document = Unparsable | Document(manifest: Manifest)

  datatype File = Unreadable | Contents(documents: seq<Document>)

  datatype LoadError =
    | UnsupportedMode
    | BadPattern
    | ReadFailed(file: nat)
    | BadDocument(file: nat, document: nat)
    | ApplyFailed(cause: Error)

  /** Documents without kind and name are passed over. */
  predicate Empty(m: Manifest) {
    m.kind == OtherKind("") && m.name == ""
  }

  /** What validateManifest objects to. */
  datatype Fault =
    | MissingApiVersion | MissingKind | MissingName | UnsupportedKind(text: string)
    | MissingFingerprint | MissingRootRef | NoRules | MissingRoleRef | NoSubjects
    | MissingIntermediateRef | NoCertificateTypes | UnnamedSubject(index: nat)

  predicate SubjectNamed(s: Subject) {
    !Blank(s.kind) && !Blank(s.name)
  }

  predicate SubjectsNamed(m: Manifest) {
    forall i :: 0 <= i < |m.subjects| ==> SubjectNamed(m.subjects[i])
  }

  /** What a manifest of its kind has to define besides its own name. */
  ghost predicate Complete(m: Manifest) {
    match m.kind
    case User => true
    case Group => true
    case ServiceAccount => true
    case RootKind => !Blank(m.fingerprint) && SubjectsNamed(m)
    case IntermediateKind => !Blank(m.rootRef) && !Blank(m.fingerprint) && SubjectsNamed(m)
    case RoleKind => m.rules != [] && SubjectsNamed(m)
    case CARoleKind => m.rules != [] && SubjectsNamed(m)
    case GlobalRoleKind => m.rules != [] && SubjectsNamed(m)
    case RoleBindingKind => !Blank(m.roleRef) && m.subjects != [] && SubjectsNamed(m)
    case CARoleBindingKind => !Blank(m.roleRef) && m.subjects != [] && SubjectsNamed(m)
    case GlobalRoleBindingKind => !Blank(m.roleRef) && m.subjects != [] && SubjectsNamed(m)
    case TokenPolicyKind => !Blank(m.intermediateRef) && m.certificateTypes != [] && SubjectsNamed(m)
    case OtherKind(_) => false
  }

  /** The fault is there, and for a subject it is the first. */
  ghost predicate HasFault(m: Manifest, fault: Fault) {
    match fault
    case MissingApiVersion => Blank(m.apiVersion)
    case MissingKind => KindBlank(m.kind)
    case MissingName => Blank(m.name)
    case UnsupportedKind(text) => m.kind == OtherKind(text)
    case MissingFingerprint => (m.kind.RootKind? || m.kind.IntermediateKind?) && Blank(m.fingerprint)
    case MissingRootRef => m.kind.IntermediateKind? && Blank(m.rootRef)
    case NoRules => IsRole(m.kind) && m.rules == []
    case MissingRoleRef => IsBinding(m.kind) && Blank(m.roleRef)
    case NoSubjects => IsBinding(m.kind) && m.subjects == []
    case MissingIntermediateRef => m.kind.TokenPolicyKind? && Blank(m.intermediateRef)
    case NoCertificateTypes => m.kind.TokenPolicyKind? && m.certificateTypes == []
    case UnnamedSubject(i) =>
      i < |m.subjects| && !SubjectNamed(m.subjects[i]) && forall j :: 0 <= j < i ==> SubjectNamed(m.subjects[j])
  }

  /** What a kind asks for, before the subjects are looked at. */
  method ValidateKind(m: Manifest) returns (fault: Option<Fault>)
    ensures fault.Some? ==> HasFault(m, fault.value) && !Complete(m)
    ensures fault.None? && SubjectsNamed(m) ==> Complete(m)
    ensures fault.None? && Complete(m) ==> m.kind.User? || m.kind.Group? || m.kind.ServiceAccount? || SubjectsNamed(m)
  {
    TrimSpaceEmptyIffBlank(m.fingerprint);
    TrimSpaceEmptyIffBlank(m.rootRef);
    TrimSpaceEmptyIffBlank(m.roleRef);
    TrimSpaceEmptyIffBlank(m.intermediateRef);
    if m.kind.RootKind? {
      fault := if TrimSpace(m.fingerprint) == "" then Some(MissingFingerprint) else None;
    } else if m.kind.IntermediateKind? {
      fault := if TrimSpace(m.rootRef) == "" then Some(MissingRootRef)
               else if TrimSpace(m.fingerprint) == "" then Some(MissingFingerprint)
               else None;
    } else if IsRole(m.kind) {
      fault := if |m.rules| == 0 then Some(NoRules) else None;
    } else if IsBinding(m.kind) {
      fault := if TrimSpace(m.roleRef) == "" then Some(MissingRoleRef)
               else if |m.subjects| == 0 then Some(NoSubjects)
               else None;
    } else if m.kind.TokenPolicyKind? {
      fault := if TrimSpace(m.intermediateRef) == "" then Some(MissingIntermediateRef)
               else if |m.certificateTypes| == 0 then Some(NoCertificateTypes)
               else None;
    } else if m.kind.OtherKind? {
      fault := Some(UnsupportedKind(m.kind.text));
    } else {
      fault := None;
    }
  }

  /** validateManifest: a manifest is good exactly when it is named and complete for its
      kind; of a bad one the fault that is reported is there. */
  method ValidateManifest(m: Manifest) returns (fault: Option<Fault>)
    ensures fault.None? <==> !Blank(m.apiVersion) && !Blank(m.name) && Complete(m)
    ensures fault.None? <==> ValidManifest(m)
    ensures fault.Some? ==> HasFault(m, fault.value)
  {
    TrimSpaceEmptyIffBlank(m.apiVersion);
    TrimSpaceEmptyIffBlank(m.name);
    ValidIsComplete(m);
    if TrimSpace(m.apiVersion) == "" {
      return Some(MissingApiVersion);
    }
    if KindBlank(m.kind) {
      return Some(MissingKind);
    }
    if TrimSpace(m.name) == "" {
      return Some(MissingName);
    }
    if m.kind.User? || m.kind.Group? || m.kind.ServiceAccount? {
      return None;
    }
    fault := ValidateKind(m);
    if fault.None? {
      fault := ValidateSubjects(m);
    }
  }

  /** The loop over the subjects. */
  method ValidateSubjects(m: Manifest) returns (fault: Option<Fault>)
    ensures fault.None? <==> SubjectsNamed(m)
    ensures fault.Some? ==> fault.value.UnnamedSubject? && HasFault(m, fault.value)
  {
    var i := 0;
    while i < |m.subjects|
      invariant 0 <= i <= |m.subjects|
      invariant forall j :: 0 <= j < i ==> SubjectNamed(m.subjects[j])
    {
      var s := m.subjects[i];
      TrimSpaceEmptyIffBlank(s.kind);
      TrimSpaceEmptyIffBlank(s.name);
      if TrimSpace(s.kind) == "" || TrimSpace(s.name) == "" {
        return Some(UnnamedSubject(i));
      }
      i := i + 1;
    }
    fault := None;
  }

  lemma ValidIsComplete(m: Manifest)
    ensures ValidManifest(m) <==> !Blank(m.apiVersion) && !Blank(m.name) && Complete(m)
  {
    assert forall i :: 0 <= i < |m.subjects| ==>
        (SubjectNamed(m.subjects[i]) <==> !Blank(m.subjects[i].kind) && !Blank(m.subjects[i].name));
  }

  predicate GoodDocument(d: Document) {
    d.Document? && (Empty(d.manifest) || ValidManifest(d.manifest))
  }

  predicate GoodFile(f: File) {
    f.Contents? && forall i :: 0 <= i < |f.documents| ==> GoodDocument(f.documents[i])
  }

  function ManifestsOf(documents: seq<Document>): seq<Manifest> {
    if documents == [] then []
    else
      var last := documents[|documents| - 1];
      ManifestsOf(documents[..|documents| - 1]) +
      (if last.Document? && !Empty(last.manifest) then [last.manifest] else [])
  }

  function Gathered(files: seq<File>): seq<Manifest> {
    if files == [] then []
    else
      var last := files[|files| - 1];
      Gathered(files[..|files| - 1]) + (if last.Contents? then ManifestsOf(last.documents) else [])
  }

  /** Documents of one file up to its first bad one. */
  method ReadFile(documents: seq<Document>) returns (ms: seq<Manifest>, bad: Option<nat>)
    ensures bad.None? ==> forall i :: 0 <= i < |documents| ==> GoodDocument(documents[i])
    ensures bad.None? ==> ms == ManifestsOf(documents)
    ensures bad.Some? ==> bad.value < |documents| && !GoodDocument(documents[bad.value])
    ensures bad.Some? ==> forall i :: 0 <= i < bad.value ==> GoodDocument(documents[i])
  {
    ms := [];
    var i := 0;
    while i < |documents|
      invariant 0 <= i <= |documents|
      invariant forall j :: 0 <= j < i ==> GoodDocument(documents[j])
      invariant ms == ManifestsOf(documents[..i])
    {
      var d := documents[i];
      assert documents[..i + 1][..i] == documents[..i];
      if d.Unparsable? {
        return ms, Some(i);
      }
      if !Empty(d.manifest) {
        var fault := ValidateManifest(d.manifest);
        if fault.Some? {
          return ms, Some(i);
        }
        ms := ms + [d.manifest];
      }
      i := i + 1;
    }
    assert documents[..i] == documents;
    bad := None;
  }

  /** The error names the first file that is not good, and in it the first bad document. */
  ghost predicate FaultIn(files: seq<File>, error: LoadError) {
    && (error.ReadFailed? || error.BadDocument?) && error.file < |files|
    && !GoodFile(files[error.file]) && (forall f :: 0 <= f < error.file ==> GoodFile(files[f]))
    && (if error.ReadFailed? then files[error.file].Unreadable? else FirstBad(files[error.file], error.document))
  }

  ghost predicate FirstBad(file: File, document: nat) {
    && file.Contents? && document < |file.documents| && !GoodDocument(file.documents[document])
    && forall i :: 0 <= i < document ==> GoodDocument(file.documents[i])
  }

  /** All manifests in order, or the first fault and nothing. */
  method ReadManifests(files: seq<File>) returns (r: Result<seq<Manifest>, LoadError>)
    ensures r.Ok? <==> forall f :: 0 <= f < |files| ==> GoodFile(files[f])
    ensures r.Ok? ==> r.value == Gathered(files)
    ensures r.Err? ==> FaultIn(files, r.error)
  {
    var out: seq<Manifest> := [];
    var f := 0;
    while f < |files|
      invariant 0 <= f <= |files|
      invariant forall g :: 0 <= g < f ==> GoodFile(files[g])
      invariant out == Gathered(files[..f])
    {
      assert files[..f + 1][..f] == files[..f];
      match files[f] {
        case Unreadable => return Err(ReadFailed(f));
        case Contents(documents) =>
          var ms, bad := ReadFile(documents);
          if bad.Some? {
            assert FirstBad(files[f], bad.value);
            return Err(BadDocument(f, bad.value));
          }
          out := out + ms;
      }
      f := f + 1;
    }
    assert files[..f] == files;
    return Ok(out);
  }

  /** The whole operation. `files` is None when a path pattern is malformed. Nothing is
      written unless every file is readable and every document in them is good; then the
      outcome is the execution of the manifests' plan. */
  method LoadAndApply(enabled: bool, mode: string, files: Option<seq<File>>, loader: Loader)
    returns (error: Option<LoadError>)
    requires loader.error.None?
    modifies loader, loader.store
    ensures !enabled ==> error.None? && loader.Progress() == old(loader.Progress())
    ensures enabled && mode != "" && mode != "file" ==> error == Some(UnsupportedMode)
    ensures enabled && (mode == "" || mode == "file") && files.None? ==> error == Some(BadPattern)
    ensures var sound := files.Some? && forall f :: 0 <= f < |files.value| ==> GoodFile(files.value[f]);
            var runs := enabled && (mode == "" || mode == "file") && sound;
            && (!runs ==> loader.Progress() == old(loader.Progress()))
            && (enabled && !runs ==> error.Some?)
            && (enabled && (mode == "" || mode == "file") && files.Some? && !sound ==>
                  FaultIn(files.value, error.value))
            && (runs ==>
                  && loader.Progress() == Execute(loader.clock, old(loader.Progress()), Plan(Gathered(files.value)))
                  && error == if loader.error.Some? then Some(ApplyFailed(loader.error.value)) else None)
  {
    if !enabled {
      return None;
    }
    if mode != "" && mode != "file" {
      return Some(UnsupportedMode);
    }
    if files.None? {
      return Some(BadPattern);
    }
    var read := ReadManifests(files.value);
    if read.Err? {
      return Some(read.error);
    }
    loader.Apply(read.value);
    return if loader.error.Some? then Some(ApplyFailed(loader.error.value)) else None;
  }
}
