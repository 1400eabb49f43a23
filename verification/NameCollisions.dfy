/**
 Which valid names share their path with another valid name. Validity is read character by
 character, so that a change in the middle of a name can be judged by the states around it.
 */
module NameCollisions {
  import opened NamePath

  // ---------------------------------------------------------------- names, read from the left

  datatype At = HostStart | InHost | PathStart | InPath | Stuck

  function Read(q: At, c: char): At {
    match q
    case HostStart => if LabelChar(c) then InHost else Stuck
    case InHost => if LabelChar(c) then InHost else if c == '.' then HostStart else if c == '/' then PathStart else Stuck
    case PathStart => if LabelChar(c) then InPath else Stuck
    case InPath => if LabelChar(c) then InPath else if c == '/' then PathStart else Stuck
    case Stuck => Stuck
  }

  function ReadAll(q: At, s: string): At
    decreases |s|
  {
    if s == "" then q else ReadAll(Read(q, s[0]), s[1..])
  }

  /** The rest of a name, from state q to a proper end. */
  predicate Completes(q: At, s: string) {
    ReadAll(q, s).InPath?
  }

  lemma {:induction false} ReadConcat(q: At, a: string, b: string)
    ensures ReadAll(q, a + b) == ReadAll(ReadAll(q, a), b)
    decreases |a|
  {
    if a == "" {
      assert a + b == b;
    } else {
      assert (a + b)[1..] == a[1..] + b;
      ReadConcat(Read(q, a[0]), a[1..], b);
    }
  }

  predicate LabelChars(s: string) {
    forall i :: 0 <= i < |s| ==> LabelChar(s[i])
  }

  predicate LabelsFrom(parts: seq<string>, n: nat) {
    forall i :: n <= i < |parts| ==> IsLabel(parts[i])
  }

  /** The same by pieces: what the rest of a name from state q must look like. */
  predicate PiecesFit(q: At, s: string) {
    var parts := Split(s, '/');
    && LabelsFrom(parts, 1)
    && match q
       case PathStart => IsLabel(parts[0])
       case InPath => LabelChars(parts[0])
       case HostStart => |parts| >= 2 && LabelsFrom(Split(parts[0], '.'), 0)
       case InHost =>
         var labels := Split(parts[0], '.');
         |parts| >= 2 && LabelChars(labels[0]) && LabelsFrom(labels, 1)
       case Stuck => false
  }

  lemma LabelsOfTail(parts: seq<string>, rest: seq<string>, n: nat)
    requires 1 <= n && 1 <= |parts| && parts[1..] == rest
    ensures LabelsFrom(parts, n) <==> LabelsFrom(rest, n - 1)
  {
    assert forall i :: 1 <= i < |parts| ==> parts[i] == rest[i - 1];
    assert forall i :: 0 <= i < |rest| ==> rest[i] == parts[i + 1];
  }

  /** Pieces after the first character: what is in front of the first separator changes, the rest stays. */
  lemma SplitAfterFirst(s: string, sep: char)
    requires s != ""
    ensures var parts, rest := Split(s, sep), Split(s[1..], sep);
            if s[0] == sep then
              parts[0] == "" && |parts| >= 2 && (LabelsFrom(parts, 1) <==> LabelsFrom(rest, 0))
            else
              parts[0] == [s[0]] + rest[0] && |parts| == |rest| && (LabelsFrom(parts, 1) <==> LabelsFrom(rest, 1))
  {
    var parts, rest := Split(s, sep), Split(s[1..], sep);
    if s[0] == sep {
      LabelsOfTail(parts, rest, 1);
    } else {
      LabelsOfTail(parts, parts[1..], 1);
      LabelsOfTail(rest, rest[1..], 1);
      assert parts[1..] == rest[1..];
    }
  }

  lemma PiecesStep(q: At, s: string)
    requires s != ""
    ensures PiecesFit(q, s) <==> PiecesFit(Read(q, s[0]), s[1..])
  {
    var parts, rest := Split(s, '/'), Split(s[1..], '/');
    SplitAfterFirst(s, '/');
    if s[0] == '/' {
      assert Split("", '.') == [""];
    } else {
      assert parts[0][1..] == rest[0];
      SplitAfterFirst(parts[0], '.');
      FirstChar(s[0], rest[0], parts[0]);
      if s[0] != '.' {
        FirstChar(s[0], Split(rest[0], '.')[0], Split(parts[0], '.')[0]);
      }
    }
  }

  lemma FirstChar(c: char, s: string, t: string)
    requires t == [c] + s
    ensures LabelChars(t) <==> LabelChar(c) && LabelChars(s)
    ensures IsLabel(t) <==> LabelChars(t)
  {
    if LabelChar(c) && LabelChars(s) {
      assert forall i :: 1 <= i < |t| ==> t[i] == s[i - 1];
    }
    if LabelChars(t) {
      assert t[0] == c && forall i :: 0 <= i < |s| ==> s[i] == t[i + 1];
    }
  }

  lemma {:induction false} PiecesFitIffCompletes(q: At, s: string)
    ensures PiecesFit(q, s) <==> Completes(q, s)
    decreases |s|
  {
    if s == "" {
      assert Split("", '/') == [""] && Split("", '.') == [""];
    } else {
      PiecesStep(q, s);
      PiecesFitIffCompletes(Read(q, s[0]), s[1..]);
    }
  }

  /** The check accepts exactly the names that can be read from the start to a proper end. */
  lemma CheckNameReads(name: string)
    ensures CheckName(name) <==> Completes(HostStart, name)
  {
    PiecesFitIffCompletes(HostStart, name);
  }

  // ---------------------------------------------------------------- reading on

  /** A slash may follow. */
  predicate InLabel(q: At) {
    q.InHost? || q.InPath?
  }

  lemma {:induction false} StuckStays(s: string)
    ensures ReadAll(Stuck, s) == Stuck
  {
    if s != "" {
      StuckStays(s[1..]);
    }
  }

  /** The first character of a rest that completes. */
  lemma CompletesFirst(q: At, s: string)
    requires Completes(q, s) && !q.InPath?
    ensures s != "" && !Read(q, s[0]).Stuck? && Completes(Read(q, s[0]), s[1..])
  {
    StuckStays(if s == "" then "" else s[1..]);
  }

  lemma CompletesNext(q: At, s: string)
    requires Completes(q, s) && s != ""
    ensures !Read(q, s[0]).Stuck? && Completes(Read(q, s[0]), s[1..])
  {
    StuckStays(s[1..]);
  }

  /** What has been read when the state is inside a label: some label character last. */
  lemma {:induction false} LabelBefore(q: At, p: string)
    requires InLabel(ReadAll(q, p)) && p != ""
    ensures LabelChar(p[|p| - 1])
    decreases |p|
  {
    if |p| == 1 {
      assert p[1..] == "" && ReadAll(q, p) == Read(q, p[0]);
    } else {
      LabelBefore(Read(q, p[0]), p[1..]);
    }
  }

  lemma {:induction false} LabelMeansInLabel(q: At, p: string)
    requires p != "" && LabelChar(p[|p| - 1]) && !ReadAll(q, p).Stuck?
    ensures InLabel(ReadAll(q, p))
    decreases |p|
  {
    if |p| == 1 {
      assert p[1..] == "" && ReadAll(q, p) == Read(q, p[0]);
    } else {
      LabelMeansInLabel(Read(q, p[0]), p[1..]);
    }
  }

  predicate HasSlash(s: string) {
    exists i :: 0 <= i < |s| && s[i] == '/'
  }

  lemma HasSlashConcat(a: string, b: string)
    ensures HasSlash(a + b) <==> HasSlash(a) || HasSlash(b)
  {
    if i :| 0 <= i < |a| && a[i] == '/' {
      assert (a + b)[i] == '/';
    }
    if i :| 0 <= i < |b| && b[i] == '/' {
      assert (a + b)[|a| + i] == '/';
    }
  }

  lemma HasSlashFirst(s: string)
    requires s != ""
    ensures HasSlash(s) <==> s[0] == '/' || HasSlash(s[1..])
  {
    assert s == [s[0]] + s[1..];
    HasSlashConcat([s[0]], s[1..]);
    assert HasSlash([s[0]]) <==> s[0] == '/' by {
      assert [s[0]][0] == s[0];
    }
  }

  /** The path begins with the first slash. */
  lemma {:induction false} PathHasSlash(q: At, s: string)
    requires q.HostStart? || q.InHost?
    ensures ReadAll(q, s).PathStart? || ReadAll(q, s).InPath? ==> HasSlash(s)
    ensures ReadAll(q, s).HostStart? || ReadAll(q, s).InHost? ==> !HasSlash(s)
    decreases |s|
  {
    if s != "" {
      HasSlashFirst(s);
      var q' := Read(q, s[0]);
      if q'.HostStart? || q'.InHost? {
        PathHasSlash(q', s[1..]);
      } else if q'.PathStart? {
        PathStays(q', s[1..]);
      } else {
        StuckStays(s[1..]);
      }
    }
  }

  /** In the path there are only labels and slashes. */
  lemma {:induction false} PathStays(q: At, s: string)
    requires q.PathStart? || q.InPath?
    ensures var r := ReadAll(q, s); r.PathStart? || r.InPath? || r.Stuck?
    ensures !ReadAll(q, s).Stuck? ==> forall i :: 0 <= i < |s| ==> LabelChar(s[i]) || s[i] == '/'
    decreases |s|
  {
    if s != "" {
      var q' := Read(q, s[0]);
      if q'.Stuck? {
        StuckStays(s[1..]);
      } else {
        PathStays(q', s[1..]);
        assert forall i :: 1 <= i < |s| ==> s[i] == s[1..][i - 1];
      }
    }
  }

  /** A rest of the path that begins with a label character completes from inside a label or from its start. */
  lemma StartOrInside(s: string)
    ensures Completes(PathStart, s) <==> s != "" && LabelChar(s[0]) && Completes(InPath, s)
  {
    if s != "" {
      StuckStays(s[1..]);
    }
  }

  /** The end of a name completes from the host if it has a slash, and from the path if it has no dot. */
  lemma {:induction false} HostOrPath(s: string)
    ensures Completes(InPath, s) && HasSlash(s) ==> Completes(InHost, s)
    ensures Completes(InHost, s) && '.' !in s ==> Completes(InPath, s)
    decreases |s|
  {
    if s != "" {
      HasSlashFirst(s);
      StuckStays(s[1..]);
      HostOrPath(s[1..]);
    }
  }

  // ---------------------------------------------------------------- rivals

  /** Another valid name with the same path. */
  predicate Rival(n: string, m: string) {
    m != n && CheckName(m) && NameToPath(m) == NameToPath(n)
  }

  ghost predicate HasRival(n: string) {
    exists m :: Rival(n, m)
  }

  /** `/-` that could be `-/`: something other than a slash follows. */
  predicate SlashMovesRight(n: string, i: nat) {
    i + 2 < |n| && n[i] == '/' && n[i + 1] == '-' && n[i + 2] != '/'
  }

  /** `-/` that could be `/-`: a label character comes before. */
  predicate SlashMovesLeft(n: string, i: nat) {
    1 <= i && i + 1 < |n| && n[i] == '-' && n[i + 1] == '/' && LabelChar(n[i - 1])
  }

  /** `/-/` that could be `--`: these are not the only slashes. */
  predicate SlashesMerge(n: string, i: nat) {
    i + 2 < |n| && n[i] == '/' && n[i + 1] == '-' && n[i + 2] == '/'
    && (HasSlash(n[..i]) || HasSlash(n[i + 3..]))
  }

  /** `--` that could be `/-/`: between label characters, with no dot after it. */
  predicate DashesSplit(n: string, i: nat) {
    1 <= i && i + 2 < |n| && n[i] == '-' && n[i + 1] == '-'
    && LabelChar(n[i - 1]) && LabelChar(n[i + 2]) && '.' !in n[i + 2..]
  }

  predicate AmbiguousAt(n: string, i: nat) {
    SlashMovesRight(n, i) || SlashMovesLeft(n, i) || SlashesMerge(n, i) || DashesSplit(n, i)
  }

  predicate Ambiguous(n: string) {
    exists i :: 0 <= i < |n| && AmbiguousAt(n, i)
  }

  // ---------------------------------------------------------------- an ambiguous name has a rival

  /** Two strings in the same place of a name whose paths agree. */
  lemma SamePathAround(p: string, a: string, b: string, v: string)
    requires Encode(a) == Encode(b)
    ensures Encode(p + a + v) == Encode(p + b + v)
  {
    EncodeConcat(p + a, v);
    EncodeConcat(p, a);
    EncodeConcat(p + b, v);
    EncodeConcat(p, b);
  }

  lemma ShortEncodings()
    ensures Encode("/-") == "---" && Encode("-/") == "---" && Encode("/-/") == "----" && Encode("--") == "----"
  {
    EncodePair('/', '-');
    EncodePair('-', '/');
    EncodePair('-', '-');
    assert "/-/"[1..] == "-/";
    assert Encode("/-/") == "-" + Encode("-/");
  }

  lemma ReadShort(q: At)
    requires InLabel(q)
    ensures ReadAll(q, "/-") == InPath && ReadAll(q, "-/") == PathStart
    ensures ReadAll(q, "/-/") == PathStart && ReadAll(q, "--") == q
  {
    assert "/-"[1..] == "-" && "-/"[1..] == "/" && "/-/"[1..] == "-/" && "--"[1..] == "-";
    assert "-"[1..] == "" && "/"[1..] == "";
    assert ReadAll(q, "-") == q && ReadAll(q, "/") == PathStart && ReadAll(PathStart, "-") == InPath;
    assert ReadAll(InPath, "/") == PathStart;
    assert ReadAll(PathStart, "-/") == PathStart;
  }

  /** Replacing a by b in the middle gives a rival if the rest still completes. */
  lemma Replacement(n: string, p: string, a: string, b: string, v: string)
    requires CheckName(n) && n == p + a + v && a != b && Encode(a) == Encode(b)
    requires Completes(ReadAll(ReadAll(HostStart, p), b), v)
    ensures HasRival(n)
  {
    var m := p + b + v;
    ReadConcat(HostStart, p + b, v);
    ReadConcat(HostStart, p, b);
    CheckNameReads(m);
    SamePathAround(p, a, b, v);
    ReplacesAreOneMap(n);
    ReplacesAreOneMap(m);
    if m == n {
      MiddleIsUnique(p, a, b, v);
    }
    assert Rival(n, m);
  }

  lemma MiddleIsUnique(p: string, a: string, b: string, v: string)
    requires p + a + v == p + b + v
    ensures a == b
  {
    assert |p + a + v| == |p| + |a| + |v| && |p + b + v| == |p| + |b| + |v|;
    assert (p + a + v)[|p|..|p| + |a|] == a;
    assert (p + b + v)[|p|..|p| + |b|] == b;
  }

  /** How a name is read that has a in its middle. */
  lemma ReadMiddle(n: string, p: string, a: string, v: string)
    requires CheckName(n) && n == p + a + v
    ensures Completes(ReadAll(ReadAll(HostStart, p), a), v)
    ensures !ReadAll(HostStart, p).Stuck?
  {
    CheckNameReads(n);
    ReadConcat(HostStart, p + a, v);
    ReadConcat(HostStart, p, a);
    StuckStays(a);
    StuckStays(v);
  }

  /** A slash is read only inside a label. */
  lemma SlashNeedsLabel(q: At, a: string, v: string)
    requires a != "" && a[0] == '/' && Completes(ReadAll(q, a), v)
    ensures InLabel(q)
  {
    StuckStays(a[1..]);
    StuckStays(v);
  }

  lemma MovesRightHasRival(n: string, i: nat)
    requires CheckName(n) && SlashMovesRight(n, i)
    ensures HasRival(n)
  {
    var p, v := n[..i], n[i + 2..];
    assert n == p + "/-" + v;
    ReadMiddle(n, p, "/-", v);
    SlashNeedsLabel(ReadAll(HostStart, p), "/-", v);
    ReadShort(ReadAll(HostStart, p));
    CompletesNext(InPath, v);
    StartOrInside(v);
    ShortEncodings();
    Replacement(n, p, "/-", "-/", v);
  }

  /** The state after a prefix that ends in a label character. */
  lemma AfterLabel(n: string, i: nat, a: string, v: string)
    requires CheckName(n) && 1 <= i <= |n| && n == n[..i] + a + v && LabelChar(n[i - 1])
    ensures InLabel(ReadAll(HostStart, n[..i]))
  {
    ReadMiddle(n, n[..i], a, v);
    LabelMeansInLabel(HostStart, n[..i]);
  }

  lemma MovesLeftHasRival(n: string, i: nat)
    requires CheckName(n) && SlashMovesLeft(n, i)
    ensures HasRival(n)
  {
    var p, v := n[..i], n[i + 2..];
    assert n == p + "-/" + v;
    ReadMiddle(n, p, "-/", v);
    AfterLabel(n, i, "-/", v);
    ReadShort(ReadAll(HostStart, p));
    StartOrInside(v);
    ShortEncodings();
    Replacement(n, p, "-/", "/-", v);
  }

  lemma MergeHasRival(n: string, i: nat)
    requires CheckName(n) && SlashesMerge(n, i)
    ensures HasRival(n)
  {
    var p, v := n[..i], n[i + 3..];
    var q := ReadAll(HostStart, p);
    assert n == p + "/-/" + v;
    ReadMiddle(n, p, "/-/", v);
    SlashNeedsLabel(q, "/-/", v);
    ReadShort(q);
    StartOrInside(v);
    PathHasSlash(HostStart, p);
    HostOrPath(v);
    assert q.InHost? ==> HasSlash(v);
    assert Completes(q, v);
    ShortEncodings();
    Replacement(n, p, "/-/", "--", v);
  }

  lemma SplitHasRival(n: string, i: nat)
    requires CheckName(n) && DashesSplit(n, i)
    ensures HasRival(n)
  {
    var p, v := n[..i], n[i + 2..];
    var q := ReadAll(HostStart, p);
    assert n == p + "--" + v;
    ReadMiddle(n, p, "--", v);
    AfterLabel(n, i, "--", v);
    ReadShort(q);
    HostOrPath(v);
    StartOrInside(v);
    ShortEncodings();
    Replacement(n, p, "--", "/-/", v);
  }

  // ---------------------------------------------------------------- a name with a rival is ambiguous

  /** What can stand behind a dash of the path. */
  lemma Peel(a: string, t: string)
    requires Encode(a) == "-" + t
    ensures a != "" && (a[0] == '-' || a[0] == '/')
    ensures a[0] == '/' ==> Encode(a[1..]) == t
    ensures a[0] == '-' ==> t == "-" + Encode(a[1..])
  {
    var rest := Encode(a[1..]);
    if a[0] == '-' {
      assert Encode(a) == "-" + ("-" + rest);
      assert t == ("-" + t)[1..] == "-" + rest;
    } else {
      assert Encode(a)[0] == '-';
      assert rest == ("-" + rest)[1..];
      assert t == ("-" + t)[1..];
    }
  }

  lemma {:induction false} EncodesNothing(s: string)
    requires Encode(s) == ""
    ensures s == ""
  {
  }

  /** Characters other than dash and slash stay in the path. */
  lemma {:induction false} OtherCharsStay(s: string, c: char)
    requires c != '-' && c != '/'
    ensures c in s <==> c in Encode(s)
  {
    if s != "" {
      OtherCharsStay(s[1..], c);
      assert s == [s[0]] + s[1..];
    }
  }

  /** The first characters of two strings with the same path. */
  lemma FirstChars(x: string, y: string)
    requires x != "" && y != "" && Encode(x) == Encode(y) && x[0] != y[0]
    ensures (x[0] == '/' && y[0] == '-') || (x[0] == '-' && y[0] == '/')
  {
    assert Encode(x)[0] == EncodeChar(x[0])[0] && Encode(y)[0] == EncodeChar(y[0])[0];
  }

  lemma SameFirst(x: string, y: string)
    requires x != "" && y != "" && Encode(x) == Encode(y) && x[0] == y[0]
    ensures Encode(x[1..]) == Encode(y[1..])
  {
    var n := |EncodeChar(x[0])|;
    assert Encode(x)[n..] == Encode(x[1..]) && Encode(y)[n..] == Encode(y[1..]);
  }

  lemma SlashFacesDash(x: string, y: string)
    requires x != "" && y != "" && Encode(x) == Encode(y) && x[0] == '/' && y[0] == '-'
    ensures Encode(x[1..]) == "-" + Encode(y[1..])
  {
    assert Encode(x)[1..] == Encode(x[1..]) && Encode(y)[1..] == "-" + Encode(y[1..]);
  }

  /** After a label a name does not end in a slash. */
  lemma MoreFollows(q: At, x: string, y: string)
    requires InLabel(q) && Completes(q, x) && Encode(x) == "-" + Encode(y)
    ensures y != ""
  {
    Peel(x, Encode(y));
    CompletesNext(q, x);
    if y == "" {
      EncodesNothing(x[1..]);
    }
  }

  /** A label that the path begins with a dash begins with a dash. */
  lemma LabelDash(x: string, t: string)
    requires Completes(PathStart, x) && Encode(x) == "-" + t
    ensures x != "" && x[0] == '-' && t == "-" + Encode(x[1..]) && Completes(InPath, x[1..])
  {
    CompletesFirst(PathStart, x);
    Peel(x, t);
  }

  lemma TakeFirst(p: string, c: char, y: string)
    requires y != "" && y[0] == c
    ensures p + y == p + [c] + y[1..]
  {
    assert y == [c] + y[1..];
  }

  predicate EndsInLabel(p: string) {
    p != "" && LabelChar(p[|p| - 1])
  }

  /** Inside a label of m comes a slash, where n has a dash. */
  lemma DashForSlash(n: string, p: string, x: string, y: string, q: At)
    requires n == p + y && EndsInLabel(p) && InLabel(q) && Completes(q, x)
    requires x != "" && y != "" && x[0] == '/' && y[0] == '-' && Encode(x) == Encode(y)
    ensures Ambiguous(n)
  {
    SlashFacesDash(x, y);
    CompletesNext(q, x);
    LabelDash(x[1..], Encode(y[1..]));
    TakeFirst(p, '-', y);
    AfterDash(n, p, y[1..], x[1..][1..]);
  }

  lemma AfterDash(n: string, p: string, y: string, x: string)
    requires n == p + "-" + y && EndsInLabel(p)
    requires Encode(y) == "-" + Encode(x) && Completes(InPath, x)
    ensures Ambiguous(n)
  {
    Peel(y, Encode(x));
    TakeFirst(p + "-", y[0], y);
    if y[0] == '/' {
      DashThenSlash(n, p, y[1..]);
    } else {
      TwoDashesForSlash(n, p, y[1..], x);
    }
  }

  lemma DashThenSlash(n: string, p: string, y: string)
    requires n == p + "-" + "/" + y && EndsInLabel(p)
    ensures Ambiguous(n)
  {
    var i := |p|;
    assert n[i - 1] == p[i - 1] && n[i] == '-' && n[i + 1] == '/';
    assert SlashMovesLeft(n, i);
    assert AmbiguousAt(n, i);
  }

  lemma TwoDashesForSlash(n: string, p: string, y: string, x: string)
    requires n == p + "-" + "-" + y && EndsInLabel(p)
    requires Encode(x) == "-" + Encode(y) && Completes(InPath, x)
    ensures Ambiguous(n)
  {
    MoreFollows(InPath, x, y);
    if y[0] == '/' {
      TakeFirst(p + "-" + "-", '/', y);
      DashThenSlash(n, p + "-", y[1..]);
    } else {
      OnlyLabelsAndSlashes(x, y);
      DashesBetweenLabels(n, p, y);
    }
  }

  /** What the path does not tell apart from the end of m has no dot either. */
  lemma OnlyLabelsAndSlashes(x: string, y: string)
    requires Encode(x) == "-" + Encode(y) && Completes(InPath, x)
    ensures forall c :: c in y ==> LabelChar(c) || c == '/'
  {
    PathStays(InPath, x);
    forall c | c in y && c != '-' && c != '/'
      ensures LabelChar(c)
    {
      OtherCharsStay(y, c);
      OtherCharsStay(x, c);
    }
  }

  lemma DashesBetweenLabels(n: string, p: string, y: string)
    requires n == p + "-" + "-" + y && EndsInLabel(p) && y != "" && LabelChar(y[0]) && '.' !in y
    ensures Ambiguous(n)
  {
    var i := |p|;
    assert n[i - 1] == p[i - 1] && n[i] == n[i + 1] == '-' && n[i + 2] == y[0];
    assert n[i + 2..] == y;
    assert DashesSplit(n, i);
    assert AmbiguousAt(n, i);
  }

  /** The name n has a slash where m has a dash. */
  lemma SlashForDash(n: string, p: string, x: string, y: string, q: At)
    requires n == p + y && q == ReadAll(HostStart, p) && Completes(q, x) && Completes(q, y)
    requires x != "" && y != "" && x[0] == '-' && y[0] == '/' && Encode(x) == Encode(y)
    ensures Ambiguous(n)
  {
    SlashFacesDash(y, x);
    CompletesNext(q, x);
    CompletesNext(q, y);
    LabelDash(y[1..], Encode(x[1..]));
    TakeFirst(p, '/', y);
    TakeFirst(p + "/", '-', y[1..]);
    AfterSlash(n, p, x[1..], y[1..][1..], q);
  }

  lemma AfterSlash(n: string, p: string, x: string, y: string, q: At)
    requires n == p + "/" + "-" + y
    requires q == ReadAll(HostStart, p) && InLabel(q) && Completes(q, x) && Completes(InPath, y)
    requires Encode(x) == "-" + Encode(y)
    ensures Ambiguous(n)
  {
    MoreFollows(q, x, y);
    if y[0] != '/' {
      SlashThenDash(n, p, y);
    } else {
      TakeFirst(p + "/" + "-", '/', y);
      if HasSlash(p) || HasSlash(y[1..]) {
        TwoOfManySlashes(n, p, y[1..]);
      } else {
        OnlyTwoSlashes(n, p, x, y[1..], q);
      }
    }
  }

  lemma SlashThenDash(n: string, p: string, y: string)
    requires n == p + "/" + "-" + y && y != "" && y[0] != '/'
    ensures Ambiguous(n)
  {
    var i := |p|;
    assert n[i] == '/' && n[i + 1] == '-' && n[i + 2] == y[0];
    assert SlashMovesRight(n, i);
    assert AmbiguousAt(n, i);
  }

  lemma TwoOfManySlashes(n: string, p: string, y: string)
    requires n == p + "/" + "-" + "/" + y && (HasSlash(p) || HasSlash(y))
    ensures Ambiguous(n)
  {
    var i := |p|;
    assert n[i] == '/' && n[i + 1] == '-' && n[i + 2] == '/';
    assert n[..i] == p && n[i + 3..] == y;
    assert SlashesMerge(n, i);
    assert AmbiguousAt(n, i);
  }

  /**
   The hard case: n is p/-/y with no other slash, so these two cannot merge, and m, which
   begins with p-, has its slashes later.
   */
  lemma OnlyTwoSlashes(n: string, p: string, x: string, y: string, q: At)
    requires n == p + "/" + "-" + "/" + y
    requires q == ReadAll(HostStart, p) && InLabel(q) && !HasSlash(p) && !HasSlash(y)
    requires Completes(q, x) && Encode(x) == "-" + ("-" + Encode(y))
    ensures Ambiguous(n)
  {
    PathHasSlash(HostStart, p);
    PathHasSlash(InHost, x);
    Peel(x, "-" + Encode(y));
    HasSlashFirst(x);
    CompletesNext(q, x);
    if x[0] == '-' {
      SameAfterDash(Encode(x[1..]), Encode(y));
      LaterSlash(n, p + "/" + "-", "", x[1..], y, q);
    } else {
      LabelDash(x[1..], Encode(y));
      Peel(y, Encode(x[1..][1..]));
      HasSlashFirst(y);
      DashAfterSlash(n, p + "/" + "-", y, x[1..][1..]);
    }
  }

  lemma SameAfterDash(a: string, b: string)
    requires "-" + a == "-" + b
    ensures a == b
  {
    assert ("-" + a)[1..] == a && ("-" + b)[1..] == b;
  }

  /** A slash, then the dash that faces a slash of m. */
  lemma DashAfterSlash(n: string, p: string, y: string, x: string)
    requires n == p + "/" + y && y != "" && y[0] == '-' && !HasSlash(y)
    requires Encode(x) == "-" + Encode(y[1..]) && Completes(InPath, x)
    ensures Ambiguous(n)
  {
    MoreFollows(InPath, x, y[1..]);
    HasSlashFirst(y);
    HasSlashFirst(y[1..]);
    TakeFirst(p + "/", '-', y);
    SlashThenDash(n, p, y[1..]);
  }

  /** The first slash of m after c faces a dash of n. */
  lemma FirstLaterSlash(n: string, p: string, c: string, x: string, y: string, q: At)
    requires n == p + "/" + c + y && !HasSlash(y)
    requires InLabel(q) && Completes(q, x) && (c != "" ==> EndsInLabel(c))
    requires x != "" && y != "" && x[0] == '/' && y[0] == '-' && Encode(x) == Encode(y)
    ensures Ambiguous(n)
  {
    if c != "" {
      DashForSlash(n, p + "/" + c, x, y, q);
    } else {
      SlashFacesDash(x, y);
      CompletesNext(q, x);
      StartOrInside(x[1..]);
      DashAfterSlash(n, p, y, x[1..]);
    }
  }

  lemma MoveFirst(p: string, c: string, y: string)
    requires y != ""
    ensures p + c + y == p + (c + [y[0]]) + y[1..]
  {
    assert y == [y[0]] + y[1..];
  }

  /** After c, the same in both, m has a slash and n has none. */
  lemma {:induction false} LaterSlash(n: string, p: string, c: string, x: string, y: string, q: At)
    requires n == p + "/" + c + y
    requires Completes(q, x) && (c != "" && InLabel(q) ==> EndsInLabel(c))
    requires Encode(x) == Encode(y) && HasSlash(x) && !HasSlash(y)
    ensures Ambiguous(n)
    decreases |x|
  {
    assert y != "";
    HasSlashFirst(x);
    HasSlashFirst(y);
    CompletesNext(q, x);
    if x[0] == y[0] {
      SameFirst(x, y);
      MoveFirst(p + "/", c, y);
      LaterSlash(n, p, c + [y[0]], x[1..], y[1..], Read(q, x[0]));
    } else {
      FirstChars(x, y);
      FirstLaterSlash(n, p, c, x, y, q);
    }
  }

  /** After p, the same in both, the names go on differently. */
  lemma {:induction false} FirstDifference(n: string, p: string, x: string, y: string)
    requires n == p + y && Completes(ReadAll(HostStart, p), x) && Completes(ReadAll(HostStart, p), y)
    requires x != y && Encode(x) == Encode(y)
    ensures Ambiguous(n)
    decreases |x|
  {
    var q := ReadAll(HostStart, p);
    if x == "" {
      EncodesNothing(y);
    } else if y == "" {
      EncodesNothing(x);
    } else if x[0] == y[0] {
      SameFirst(x, y);
      TakeFirst(p, y[0], y);
      ReadOneMore(p, y[0]);
      assert x[1..] != y[1..] by {
        assert x == [x[0]] + x[1..] && y == [y[0]] + y[1..];
      }
      FirstDifference(n, p + [y[0]], x[1..], y[1..]);
    } else {
      FirstChars(x, y);
      if x[0] == '-' {
        SlashForDash(n, p, x, y, q);
      } else {
        CompletesNext(q, x);
        SlashAfterLabel(p);
        DashForSlash(n, p, x, y, q);
      }
    }
  }

  lemma ReadOneMore(p: string, c: char)
    ensures ReadAll(HostStart, p + [c]) == Read(ReadAll(HostStart, p), c)
  {
    ReadConcat(HostStart, p, [c]);
    assert [c][1..] == "";
  }

  lemma SlashAfterLabel(p: string)
    requires InLabel(ReadAll(HostStart, p))
    ensures EndsInLabel(p)
  {
    if p != "" {
      LabelBefore(HostStart, p);
    }
  }

  /**
   A valid name shares its path with another valid name exactly when it is ambiguous, which
   is a matter of a few neighbouring characters.
   */
  lemma RivalIffAmbiguous(n: string)
    requires CheckName(n)
    ensures HasRival(n) <==> Ambiguous(n)
  {
    if m :| Rival(n, m) {
      ReplacesAreOneMap(n);
      ReplacesAreOneMap(m);
      CheckNameReads(n);
      CheckNameReads(m);
      FirstDifference(n, "", m, n);
      assert "" + n == n;
    }
    if i: nat :| i < |n| && AmbiguousAt(n, i) {
      if SlashMovesRight(n, i) {
        MovesRightHasRival(n, i);
      } else if SlashMovesLeft(n, i) {
        MovesLeftHasRival(n, i);
      } else if SlashesMerge(n, i) {
        MergeHasRival(n, i);
      } else {
        SplitHasRival(n, i);
      }
    }
  }

  // ---------------------------------------------------------------- the name that a decoder gives back

  lemma {:induction false} EncodeUndoesDecode(p: string)
    requires forall i :: 0 <= i < |p| ==> p[i] != '/'
    ensures Encode(Decode(p)) == p
    decreases |p|
  {
    if p != "" {
      if p[0] == '-' && |p| >= 2 && p[1] == '-' {
        EncodeUndoesDecode(p[2..]);
        assert ("-" + Decode(p[2..]))[1..] == Decode(p[2..]);
        assert p == "--" + p[2..];
      } else {
        EncodeUndoesDecode(p[1..]);
        var c := if p[0] == '-' then '/' else p[0];
        assert Decode(p) == [c] + Decode(p[1..]) && ([c] + Decode(p[1..]))[1..] == Decode(p[1..]);
        assert p == [p[0]] + p[1..];
      }
    }
  }

  /**
   A valid name with a slash before a dash shares its path with a name without one exactly
   when what the decoder makes of the path is itself a valid name; that name is then the one.
   */
  lemma DecodedRival(n: string)
    requires CheckName(n) && !NoSlashBeforeDash(n)
    ensures var d := Decode(Encode(n));
            && (CheckName(d) <==> exists m :: Rival(n, m) && NoSlashBeforeDash(m))
            && forall m :: Rival(n, m) && NoSlashBeforeDash(m) ==> m == d
  {
    var d := Decode(Encode(n));
    EncodedHasNoSlash(n);
    EncodeUndoesDecode(Encode(n));
    DecodedIsSeparated(Encode(n));
    ReplacesAreOneMap(n);
    ReplacesAreOneMap(d);
    if CheckName(d) {
      assert Rival(n, d) && NoSlashBeforeDash(d);
    }
    forall m | Rival(n, m) && NoSlashBeforeDash(m)
      ensures m == d
    {
      ReplacesAreOneMap(m);
      NameIsRecoverable(m);
    }
  }
}
