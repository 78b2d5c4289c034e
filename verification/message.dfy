/** The messages the recursive watcher emits and their one-line text form
    (message.go). The source's open `interface{}` union becomes one closed
    datatype; `os.FileInfo` is reduced to the one fact the watcher reads
    from it, whether the path is a directory. */
module Messages {
  import opened Results

  /** What a fresh stat of a path says about it. */
  datatype FileInfo = FileInfo(isDir: bool)

  datatype Message =
    | Error(path: string, cause: string)
    | Created(path: string, file: FileInfo)
    | Changed(path: string, file: FileInfo)
    | Deleted(path: string)
    | Renamed(path: string, file: FileInfo)
    | Chmoded(path: string, file: FileInfo)
  {
    /** The variants that carry stat information. */
    predicate CarriesInfo() {
      Created? || Changed? || Renamed? || Chmoded?
    }
  }

  /** The variant of a message, without its payload. */
  datatype Kind = ErrorKind | CreatedKind | ChangedKind | DeletedKind | RenamedKind | ChmodedKind

  function KindOf(m: Message): Kind {
    match m
    case Error(_, _) => ErrorKind
    case Created(_, _) => CreatedKind
    case Changed(_, _) => ChangedKind
    case Deleted(_) => DeletedKind
    case Renamed(_, _) => RenamedKind
    case Chmoded(_, _) => ChmodedKind
  }

  /** The upper-case tag each variant's text starts with. */
  function Tag(k: Kind): string {
    match k
    case ErrorKind => "ERROR"
    case CreatedKind => "CREATED"
    case ChangedKind => "CHANGED"
    case DeletedKind => "DELETED"
    case RenamedKind => "RENAMED"
    case ChmodedKind => "CHMODED"
  }

  /** The tag followed by the opening of the path field. */
  function Lead(k: Kind): string {
    Tag(k) + " ("
  }

  /** Go's `%t` verb. */
  function BoolText(b: bool): string {
    if b then "true" else "false"
  }

  /** The `String()` method of each variant. The cause of an `Error` is
      already text here. */
  function Render(m: Message): string {
    match m
    case Error(p, c) => "ERROR (" + p + "): " + c
    case Created(p, f) => "CREATED (" + p + ") (dir=" + BoolText(f.isDir) + ")"
    case Changed(p, f) => "CHANGED (" + p + ") (dir=" + BoolText(f.isDir) + ")"
    case Deleted(p) => "DELETED (" + p + ")"
    case Renamed(p, f) => "RENAMED (" + p + ") (dir=" + BoolText(f.isDir) + ")"
    case Chmoded(p, f) => "CHMODED (" + p + ") (dir=" + BoolText(f.isDir) + ")"
  }

  /** The closing field of a variant that carries stat information. */
  function DirField(isDir: bool): string {
    ") (dir=" + BoolText(isDir) + ")"
  }

  // ----- Reading a rendered line back -----

  predicate EndsWith(s: string, t: string) {
    |t| <= |s| && s[|s| - |t|..] == t
  }

  /** True iff `t` occurs in `s` as a contiguous piece. */
  predicate Contains(s: string, t: string)
    decreases |s|
  {
    t <= s || (|s| > 0 && Contains(s[1..], t))
  }

  /** The position of the first occurrence of `t` in `s`, or `|s|` if
      there is none. */
  function IndexOfText(s: string, t: string): (i: nat)
    requires |t| > 0
    ensures i <= |s|
    ensures i < |s| ==> t <= s[i..]
    ensures forall j :: 0 <= j < i ==> !(t <= s[j..])
    decreases |s|
  {
    if |s| == 0 then 0
    else if t <= s then 0
    else
      var k := IndexOfText(s[1..], t);
      assert forall j :: 1 <= j <= |s| ==> s[1..][j - 1..] == s[j..];
      1 + k
  }

  /** The variant named by the leading tag of a line, if any. */
  function KindOfText(s: string): (r: Option<Kind>)
    ensures r.Some? ==> Lead(r.value) <= s
  {
    if Lead(ErrorKind) <= s then Some(ErrorKind)
    else if Lead(CreatedKind) <= s then Some(CreatedKind)
    else if Lead(ChangedKind) <= s then Some(ChangedKind)
    else if Lead(DeletedKind) <= s then Some(DeletedKind)
    else if Lead(RenamedKind) <= s then Some(RenamedKind)
    else if Lead(ChmodedKind) <= s then Some(ChmodedKind)
    else None
  }

  /** Builds the information-carrying variant of kind `k`. */
  function WithInfo(k: Kind, p: string, f: FileInfo): Message
    requires k in {CreatedKind, ChangedKind, RenamedKind, ChmodedKind}
  {
    match k
    case CreatedKind => Created(p, f)
    case ChangedKind => Changed(p, f)
    case RenamedKind => Renamed(p, f)
    case ChmodedKind => Chmoded(p, f)
  }

  /** Splits `path) (dir=<bool>)` into the path and the flag. */
  function ParseInfoBody(body: string): Option<(string, bool)> {
    if EndsWith(body, DirField(true)) then Some((body[..|body| - |DirField(true)|], true))
    else if EndsWith(body, DirField(false)) then Some((body[..|body| - |DirField(false)|], false))
    else None
  }

  /** The separator between the path and the cause of an error line. */
  const ErrorSep: string := "): "

  /** Splits `path): cause` at the first "): ". */
  function ParseErrorBody(body: string): Option<Message> {
    var j := IndexOfText(body, ErrorSep);
    if j < |body| then Some(Error(body[..j], body[j + |ErrorSep|..]))
    else None
  }

  /** Reads a rendered line back into a message. */
  function Parse(s: string): Option<Message> {
    match KindOfText(s)
    case None => None
    case Some(k) =>
      var body := s[|Lead(k)|..];
      match k
      case ErrorKind => ParseErrorBody(body)
      case DeletedKind =>
        if |body| > 0 && body[|body| - 1] == ')' then Some(Deleted(body[..|body| - 1])) else None
      case _ =>
        match ParseInfoBody(body)
        case None => None
        case Some(pd) => Some(WithInfo(k, pd.0, FileInfo(pd.1)))
  }

  // ----- Properties of the rendering -----

  /** The six leads are pairwise distinct and none is a prefix of another. */
  lemma LeadsPrefixFree(k1: Kind, k2: Kind)
    requires k1 != k2
    ensures !(Lead(k1) <= Lead(k2))
  {
    var a, b := Lead(k1), Lead(k2);
    assert |a| >= 7 && |b| >= 7;
    // The second and fourth letters of the tags tell the six apart.
    assert (a[1], a[3]) != (b[1], b[3]);
  }

  /** Two prefixes of one sequence are prefixes of each other. */
  lemma PrefixesComparable(a: string, b: string, s: string)
    requires a <= s && b <= s
    ensures a <= b || b <= a
  {
    if |a| <= |b| {
      assert a == s[..|a|] == b[..|a|];
    } else {
      assert b == s[..|b|] == a[..|b|];
    }
  }

  /** Every rendered line is its variant's lead, the path, and a closing
      part fixed by the variant. */
  lemma RenderShape(m: Message)
    ensures m.CarriesInfo() ==> Render(m) == Lead(KindOf(m)) + m.path + DirField(m.file.isDir)
    ensures m.Deleted? ==> Render(m) == Lead(DeletedKind) + m.path + ")"
    ensures m.Error? ==> Render(m) == Lead(ErrorKind) + m.path + "): " + m.cause
  {
    match m
    case Error(p, c) =>
      assert Lead(ErrorKind) == "ERROR (";
    case Created(p, f) =>
      assert Lead(CreatedKind) == "CREATED (";
      InfoShape("CREATED (", p, f.isDir);
    case Changed(p, f) =>
      assert Lead(ChangedKind) == "CHANGED (";
      InfoShape("CHANGED (", p, f.isDir);
    case Deleted(p) =>
      assert Lead(DeletedKind) == "DELETED (";
    case Renamed(p, f) =>
      assert Lead(RenamedKind) == "RENAMED (";
      InfoShape("RENAMED (", p, f.isDir);
    case Chmoded(p, f) =>
      assert Lead(ChmodedKind) == "CHMODED (";
      InfoShape("CHMODED (", p, f.isDir);
  }

  lemma InfoShape(lead: string, p: string, d: bool)
    ensures lead + p + ") (dir=" + BoolText(d) + ")" == lead + p + DirField(d)
  {
  }

  lemma RenderLeads(m: Message)
    ensures Lead(KindOf(m)) + m.path <= Render(m)
  {
    RenderShape(m);
    var s := Render(m);
    var l := Lead(KindOf(m)) + m.path;
    assert s[..|l|] == l;
  }

  /** The leading tag of a rendered line determines the variant. */
  lemma KindOfRendered(m: Message)
    ensures KindOfText(Render(m)) == Some(KindOf(m))
  {
    var s := Render(m);
    RenderLeads(m);
    assert Lead(KindOf(m)) <= s;
    forall k: Kind | k != KindOf(m)
      ensures !(Lead(k) <= s)
    {
      if Lead(k) <= s {
        PrefixesComparable(Lead(k), Lead(KindOf(m)), s);
        LeadsPrefixFree(k, KindOf(m));
        LeadsPrefixFree(KindOf(m), k);
      }
    }
  }

  /** The body of an information-carrying line gives back path and flag. */
  lemma ParseInfoBodyOf(p: string, d: bool)
    ensures ParseInfoBody(p + DirField(d)) == Some((p, d))
  {
    var body := p + DirField(d);
    var t, f := DirField(true), DirField(false);
    assert body[..|body| - |DirField(d)|] == p;
    if d {
      assert body[|body| - |t|..] == t;
    } else {
      assert body[|body| - |f|..] == f;
      assert body[|body| - |t|..][0] == ' ';
    }
  }

  /** In `p + "): " + c`, the first separator follows the path, provided
      the path holds no separator of its own. */
  lemma {:induction false} SepAfterPath(p: string, c: string)
    requires !Contains(p, ErrorSep)
    ensures IndexOfText(p + ErrorSep + c, ErrorSep) == |p|
    decreases |p|
  {
    var body := p + ErrorSep + c;
    if |p| == 0 {
      assert body[..3] == ErrorSep;
    } else {
      assert !(ErrorSep <= body) by {
        if |p| >= 3 {
          assert body[..3] == p[..3];
        } else if |p| == 2 {
          assert body[2] == ')';
        } else {
          assert body[1] == ')';
        }
      }
      assert body[1..] == p[1..] + ErrorSep + c;
      SepAfterPath(p[1..], c);
    }
  }

  /** A separator inside `p` is found before the end of `p`. */
  lemma {:induction false} SepInsidePath(p: string, r: string)
    requires Contains(p, ErrorSep)
    ensures IndexOfText(p + r, ErrorSep) < |p|
    decreases |p|
  {
    var s := p + r;
    if ErrorSep <= p {
      assert ErrorSep <= s;
    } else {
      assert s[1..] == p[1..] + r;
      if !(ErrorSep <= s) {
        SepInsidePath(p[1..], r);
      }
    }
  }

  /** The body of an error line splits back into path and cause when the
      path holds no separator. */
  lemma ParseErrorBodyOf(p: string, c: string)
    requires !Contains(p, ErrorSep)
    ensures ParseErrorBody(p + "): " + c) == Some(Error(p, c))
  {
    var body := p + ErrorSep + c;
    SepAfterPath(p, c);
    assert body[..|p|] == p;
    assert body[|p| + 3..] == c;
  }

  /** Parsing is a left inverse of rendering, for every message whose text
      is unambiguous: an error path must not contain "): ". */
  lemma ParseRender(m: Message)
    requires m.Error? ==> !Contains(m.path, ErrorSep)
    ensures Parse(Render(m)) == Some(m)
  {
    var k := KindOf(m);
    KindOfRendered(m);
    RenderShape(m);
    if m.Error? {
      ParseErrorLine(m.path, m.cause);
    } else if m.Deleted? {
      ParseDeletedLine(m.path);
    } else {
      ParseInfoLine(m, k);
    }
  }

  lemma ParseErrorLine(p: string, c: string)
    requires !Contains(p, ErrorSep)
    requires KindOfText(Lead(ErrorKind) + p + "): " + c) == Some(ErrorKind)
    ensures Parse(Lead(ErrorKind) + p + "): " + c) == Some(Error(p, c))
  {
    var s := Lead(ErrorKind) + p + "): " + c;
    var body := s[|Lead(ErrorKind)|..];
    assert body == p + "): " + c;
    assert Parse(s) == ParseErrorBody(body);
    ParseErrorBodyOf(p, c);
  }

  lemma ParseDeletedLine(p: string)
    requires KindOfText(Lead(DeletedKind) + p + ")") == Some(DeletedKind)
    ensures Parse(Lead(DeletedKind) + p + ")") == Some(Deleted(p))
  {
    var s := Lead(DeletedKind) + p + ")";
    var body := s[|Lead(DeletedKind)|..];
    assert body == p + ")";
    assert body[..|body| - 1] == p;
  }

  lemma ParseInfoLine(m: Message, k: Kind)
    requires m.CarriesInfo() && k == KindOf(m)
    requires KindOfText(Lead(k) + m.path + DirField(m.file.isDir)) == Some(k)
    ensures Parse(Lead(k) + m.path + DirField(m.file.isDir)) == Some(m)
  {
    var s := Lead(k) + m.path + DirField(m.file.isDir);
    assert s[|Lead(k)|..] == m.path + DirField(m.file.isDir);
    ParseInfoBodyOf(m.path, m.file.isDir);
  }

  /** An error line reads back as the same error exactly when its path
      holds no "): ". */
  lemma ParseRenderError(p: string, c: string)
    ensures Parse(Render(Error(p, c))) == Some(Error(p, c)) <==> !Contains(p, ErrorSep)
  {
    if Contains(p, ErrorSep) {
      var m := Error(p, c);
      KindOfRendered(m);
      RenderShape(m);
      var body := Render(m)[|Lead(ErrorKind)|..];
      assert body == p + (ErrorSep + c);
      SepInsidePath(p, ErrorSep + c);
      var j := IndexOfText(body, ErrorSep);
      assert Parse(Render(m)) == ParseErrorBody(body);
      assert |body[..j]| < |p|;
    } else {
      ParseRender(Error(p, c));
    }
  }

  /** An error whose path contains "): " can render exactly like a
      different error. */
  lemma ErrorRenderAmbiguous()
    ensures Error("a): b", "c") != Error("a", "b): c")
    ensures Render(Error("a): b", "c")) == Render(Error("a", "b): c"))
  {
  }

  /** A text that cannot start inside `q` occurs in `q + r` only inside `r`. */
  lemma {:induction false} ContainsSkipLead(q: string, r: string, t: string)
    requires |t| > 0 && t[0] !in q
    ensures Contains(q + r, t) <==> Contains(r, t)
    decreases |q|
  {
    if |q| > 0 {
      assert !(t <= q + r) by {
        assert (q + r)[0] == q[0];
      }
      assert (q + r)[1..] == q[1..] + r;
      ContainsSkipLead(q[1..], r, t);
    } else {
      assert q + r == r;
    }
  }

  /** A text without `c` never uses a trailing `c`. */
  lemma {:induction false} ContainsDropTail(p: string, c: char, t: string)
    requires |t| > 0 && c !in t
    ensures Contains(p + [c], t) <==> Contains(p, t)
    decreases |p|
  {
    var s := p + [c];
    if |t| <= |p| {
      assert s[..|t|] == p[..|t|];
    } else if |t| == |p| + 1 {
      assert t[|p|] != s[|p|];
    }
    if |p| > 0 {
      assert s[1..] == p[1..] + [c];
      ContainsDropTail(p[1..], c, t);
    } else {
      assert !Contains(s[1..], t);
    }
  }

  /** A `Deleted` line has no `dir=` field: the text "dir=" occurs in it
      exactly when it occurs in the path itself. */
  lemma DeletedHasNoDirField(p: string)
    ensures Contains(Render(Deleted(p)), "dir=") <==> Contains(p, "dir=")
  {
    assert Render(Deleted(p)) == "DELETED (" + (p + [')']);
    ContainsSkipLead("DELETED (", p + [')'], "dir=");
    ContainsDropTail(p, ')', "dir=");
  }
}
