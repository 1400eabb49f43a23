/** Application names and the file names made from them. */
module NamePath {

  datatype Result<T> = Ok(value: T) | Err(message: string)

  predicate LabelChar(c: char) {
    'a' <= c <= 'z' || 'A' <= c <= 'Z' || '0' <= c <= '9' || c == '-'
  }

  predicate IsLabel(s: string) {
    s != "" && forall i :: 0 <= i < |s| ==> LabelChar(s[i])
  }

  /** The pieces of a string between separators; always at least one. */
  function Split(s: string, sep: char): (parts: seq<string>)
    ensures |parts| >= 1
  {
    if s == "" then [""]
    else if s[0] == sep then [""] + Split(s[1..], sep)
    else
      var rest := Split(s[1..], sep);
      [[s[0]] + rest[0]] + rest[1..]
  }

  /** Labels joined by dots, then one or more labels each after a slash. */
  predicate CheckName(name: string) {
    var parts := Split(name, '/');
    && |parts| >= 2
    && (forall i :: 1 <= i < |parts| ==> IsLabel(parts[i]))
    && var labels := Split(parts[0], '.');
       forall i :: 0 <= i < |labels| ==> IsLabel(labels[i])
  }

  // ---------------------------------------------------------------- the regular expression

  /** The pieces with a separator before each but the first. */
  function Join(parts: seq<string>, sep: char): string
    requires |parts| >= 1
  {
    if |parts| == 1 then parts[0] else parts[0] + [sep] + Join(parts[1..], sep)
  }

  predicate Labels(parts: seq<string>) {
    |parts| >= 1 && forall i :: 0 <= i < |parts| ==> IsLabel(parts[i])
  }

  /** A match of the expression: labels joined by dots, and one or more labels each after a slash. */
  ghost predicate Matches(name: string) {
    exists host: seq<string>, path: seq<string> :: IsMatch(name, host, path)
  }

  ghost predicate IsMatch(name: string, host: seq<string>, path: seq<string>) {
    Labels(host) && Labels(path) && name == Join([Join(host, '.')] + path, '/')
  }

  lemma {:induction false} JoinSplit(s: string, sep: char)
    ensures Join(Split(s, sep), sep) == s
  {
    if s != "" {
      var rest := Split(s[1..], sep);
      JoinSplit(s[1..], sep);
      var parts := Split(s, sep);
      if s[0] == sep {
        assert parts[1..] == rest;
      } else {
        assert parts[1..] == rest[1..];
      }
    }
  }

  lemma {:induction false} SplitPrefix(a: string, s: string, sep: char)
    requires sep !in a
    ensures Split(a + [sep] + s, sep) == [a] + Split(s, sep)
  {
    if a == "" {
      assert a + [sep] + s == [sep] + s && ([sep] + s)[1..] == s;
    } else {
      assert (a + [sep] + s)[1..] == a[1..] + [sep] + s;
      SplitPrefix(a[1..], s, sep);
      assert [a[0]] + a[1..] == a;
    }
  }

  lemma {:induction false} SplitNone(a: string, sep: char)
    requires sep !in a
    ensures Split(a, sep) == [a]
  {
    if a != "" {
      SplitNone(a[1..], sep);
      assert [a[0]] + a[1..] == a;
    }
  }

  lemma {:induction false} SplitJoin(parts: seq<string>, sep: char)
    requires |parts| >= 1 && forall i :: 0 <= i < |parts| ==> sep !in parts[i]
    ensures Split(Join(parts, sep), sep) == parts
  {
    if |parts| == 1 {
      SplitNone(parts[0], sep);
    } else {
      SplitJoin(parts[1..], sep);
      SplitPrefix(parts[0], Join(parts[1..], sep), sep);
    }
  }

  lemma {:induction false} NoSlashInHost(host: seq<string>)
    requires Labels(host)
    ensures '/' !in Join(host, '.')
  {
    if |host| > 1 {
      NoSlashInHost(host[1..]);
    }
  }

  /** The check accepts exactly the names that match the expression. */
  lemma CheckNameIsTheExpression(name: string)
    ensures CheckName(name) <==> Matches(name)
  {
    if CheckName(name) {
      var parts := Split(name, '/');
      var host := Split(parts[0], '.');
      JoinSplit(name, '/');
      JoinSplit(parts[0], '.');
      assert [Join(host, '.')] + parts[1..] == parts;
      assert IsMatch(name, host, parts[1..]);
    }
    if host, path :| IsMatch(name, host, path) {
      NoSlashInHost(host);
      var parts := [Join(host, '.')] + path;
      assert forall i :: 0 <= i < |parts| ==> '/' !in parts[i];
      SplitJoin(parts, '/');
      SplitJoin(host, '.');
    }
  }

  // ---------------------------------------------------------------- the path

  /** `str::replace` for a one-character pattern. */
  function Replace(s: string, from: char, to: string): (r: string) {
    if s == "" then "" else (if s[0] == from then to else [s[0]]) + Replace(s[1..], from, to)
  }

  function NameToPath(name: string): (r: Result<string>) {
    if CheckName(name) then Ok(Replace(Replace(name, '-', "--"), '/', "-")) else Err("bad name")
  }

  // ---------------------------------------------------------------- one map

  function EncodeChar(c: char): string {
    if c == '-' then "--" else if c == '/' then "-" else [c]
  }

  function Encode(s: string): (p: string) {
    if s == "" then "" else EncodeChar(s[0]) + Encode(s[1..])
  }

  lemma {:induction false} ReplaceConcat(a: string, b: string, from: char, to: string)
    ensures Replace(a + b, from, to) == Replace(a, from, to) + Replace(b, from, to)
  {
    if a == "" {
      assert a + b == b;
    } else {
      assert (a + b)[1..] == a[1..] + b;
      ReplaceConcat(a[1..], b, from, to);
    }
  }

  lemma ReplaceFirst(c: char)
    ensures Replace(if c == '-' then "--" else [c], '/', "-") == EncodeChar(c)
  {
    if c == '-' {
      assert "--"[1..] == "-" && "-"[1..] == "";
      assert Replace("-", '/', "-") == "-";
    } else {
      assert [c][1..] == "";
    }
  }

  /** The two replacements in a row are one map over the characters. */
  lemma {:induction false} ReplacesAreOneMap(s: string)
    ensures Replace(Replace(s, '-', "--"), '/', "-") == Encode(s)
  {
    if s != "" {
      ReplacesAreOneMap(s[1..]);
      ReplaceFirst(s[0]);
      ReplaceConcat(if s[0] == '-' then "--" else [s[0]], Replace(s[1..], '-', "--"), '/', "-");
    }
  }

  // ---------------------------------------------------------------- the decoder

  /** Dashes are taken in pairs from the left; an odd one at the end of a run was a slash. */
  function Decode(p: string): (s: string) {
    if p == "" then ""
    else if p[0] != '-' then [p[0]] + Decode(p[1..])
    else if |p| >= 2 && p[1] == '-' then "-" + Decode(p[2..])
    else "/" + Decode(p[1..])
  }

  /** No slash is directly followed by a dash or by another slash. */
  predicate Separated(s: string) {
    forall i :: 0 <= i < |s| - 1 && s[i] == '/' ==> s[i + 1] != '-' && s[i + 1] != '/'
  }

  lemma {:induction false} EncodedHasNoSlash(s: string)
    ensures forall i :: 0 <= i < |Encode(s)| ==> Encode(s)[i] != '/'
  {
    if s != "" {
      EncodedHasNoSlash(s[1..]);
    }
  }

  lemma {:induction false} DecodeUndoesEncode(s: string)
    requires Separated(s)
    ensures Decode(Encode(s)) == s
  {
    if s != "" {
      var rest := s[1..];
      assert Separated(rest);
      DecodeUndoesEncode(rest);
      var p := Encode(s);
      if s[0] == '-' {
        assert p[2..] == Encode(rest);
      } else {
        assert p[1..] == Encode(rest);
        if s[0] == '/' && rest != "" {
          assert s[0 + 1] == rest[0];
          assert Encode(rest)[0] == rest[0];
        }
      }
    }
  }

  lemma {:induction false} DecodedIsSeparated(p: string)
    requires forall i :: 0 <= i < |p| ==> p[i] != '/'
    ensures Separated(Decode(p))
    ensures p != "" && p[0] != '-' ==> Decode(p) != "" && Decode(p)[0] == p[0]
    decreases |p|
  {
    if p != "" {
      if p[0] == '-' && |p| >= 2 && p[1] == '-' {
        DecodedIsSeparated(p[2..]);
        SeparatedCons('-', Decode(p[2..]));
      } else {
        DecodedIsSeparated(p[1..]);
        SeparatedCons(if p[0] == '-' then '/' else p[0], Decode(p[1..]));
        assert |p| >= 2 ==> p[1..][0] == p[1];
      }
    }
  }

  lemma SeparatedCons(c: char, s: string)
    requires Separated(s)
    requires c == '/' && s != "" ==> s[0] != '-' && s[0] != '/'
    ensures Separated([c] + s)
  {
    var t := [c] + s;
    forall i | 0 <= i < |t| - 1 && t[i] == '/'
      ensures t[i + 1] != '-' && t[i + 1] != '/'
    {
      if i > 0 {
        assert t[i] == s[i - 1] && t[i + 1] == s[i];
        assert s[i - 1 + 1] == s[i];
      }
    }
  }

  /** For every string: the decoder gives it back exactly when its slashes are separated. */
  lemma DecodableIffSeparated(s: string)
    ensures Decode(Encode(s)) == s <==> Separated(s)
  {
    if Separated(s) {
      DecodeUndoesEncode(s);
    }
    EncodedHasNoSlash(s);
    DecodedIsSeparated(Encode(s));
  }

  // ---------------------------------------------------------------- names

  predicate NoSlashBeforeDash(s: string) {
    forall i :: 0 <= i < |s| - 1 && s[i] == '/' ==> s[i + 1] != '-'
  }

  /**
   A name has a path exactly if it matches the expression; the path is then its characters
   encoded one by one, and any other name is refused.
   */
  lemma OnlyMatchingNamesHavePaths(name: string)
    ensures NameToPath(name) == if Matches(name) then Ok(Encode(name)) else Err("bad name")
  {
    CheckNameIsTheExpression(name);
    ReplacesAreOneMap(name);
  }

  /** Two slashes in a row make an empty piece. */
  lemma {:induction false} DoubleSlashMakesEmptyPiece(s: string, i: nat)
    requires i + 1 < |s| && s[i] == '/' && s[i + 1] == '/'
    ensures exists k :: 1 <= k < |Split(s, '/')| && Split(s, '/')[k] == ""
  {
    var rest := Split(s[1..], '/');
    if i == 0 {
      assert s[1..][0] == '/';
      assert rest[0] == "";
      assert Split(s, '/')[1] == rest[0];
    } else {
      DoubleSlashMakesEmptyPiece(s[1..], i - 1);
      var k :| 1 <= k < |rest| && rest[k] == "";
      var j := if s[0] == '/' then k + 1 else k;
      assert Split(s, '/')[j] == rest[k];
    }
  }

  lemma ValidNameHasNoDoubleSlash(name: string)
    requires CheckName(name)
    ensures forall i :: 0 <= i < |name| - 1 && name[i] == '/' ==> name[i + 1] != '/'
  {
    if i :| 0 <= i < |name| - 1 && name[i] == '/' && name[i + 1] == '/' {
      DoubleSlashMakesEmptyPiece(name, i);
    }
  }

  /**
   The decoder gives a valid name back from its path exactly when it has no slash directly
   followed by a dash.
   */
  lemma NameIsRecoverable(name: string)
    requires CheckName(name)
    ensures NameToPath(name).Ok?
    ensures Decode(NameToPath(name).value) == name <==> NoSlashBeforeDash(name)
  {
    ReplacesAreOneMap(name);
    DecodableIffSeparated(name);
    ValidNameHasNoDoubleSlash(name);
  }

  /** So no two such names share a path. */
  lemma NameToPathIsInjective(a: string, b: string)
    requires CheckName(a) && CheckName(b) && NoSlashBeforeDash(a) && NoSlashBeforeDash(b)
    requires NameToPath(a) == NameToPath(b)
    ensures a == b
  {
    NameIsRecoverable(a);
    NameIsRecoverable(b);
  }

  lemma {:induction false} EncodeConcat(a: string, b: string)
    ensures Encode(a + b) == Encode(a) + Encode(b)
  {
    if a == "" {
      assert a + b == b;
    } else {
      assert (a + b)[1..] == a[1..] + b;
      EncodeConcat(a[1..], b);
    }
  }

  lemma EncodePair(c: char, d: char)
    ensures Encode([c, d]) == EncodeChar(c) + EncodeChar(d)
  {
    assert [c, d][1..] == [d] && [d][1..] == "";
    assert Encode([d]) == EncodeChar(d) + "";
  }

  /** A name made of two labels is valid. */
  lemma TwoLabelsAreAName(a: string, b: string)
    requires IsLabel(a) && IsLabel(b)
    ensures CheckName(a + "/" + b)
  {
    SplitPrefix(a, b, '/');
    SplitNone(b, '/');
    SplitNone(a, '.');
  }

  /**
   Without the restriction the map is not injective: for any two labels a and b, the names
   a-/b and a/-b are both valid and have the same path.
   */
  lemma CollidingNames(a: string, b: string)
    requires IsLabel(a) && IsLabel(b)
    ensures var m, n := a + "-/" + b, a + "/-" + b;
            m != n && CheckName(m) && CheckName(n) && NameToPath(m) == NameToPath(n)
  {
    var m, n := a + "-/" + b, a + "/-" + b;
    TwoLabelsAreAName(a + "-", b);
    assert (a + "-") + "/" + b == m;
    TwoLabelsAreAName(a, "-" + b);
    assert a + "/" + ("-" + b) == n;
    assert m[|a|] == '-' && n[|a|] == '/';
    ReplacesAreOneMap(m);
    ReplacesAreOneMap(n);
    SameEncoding(a, b);
  }

  lemma SameEncoding(a: string, b: string)
    ensures Encode(a + "-/" + b) == Encode(a + "/-" + b)
  {
    EncodeConcat(a + "-/", b);
    EncodeConcat(a, "-/");
    EncodeConcat(a + "/-", b);
    EncodeConcat(a, "/-");
    EncodePair('-', '/');
    EncodePair('/', '-');
    assert EncodeChar('-') + EncodeChar('/') == "---" == EncodeChar('/') + EncodeChar('-');
    assert ['-', '/'] == "-/" && ['/', '-'] == "/-";
  }
}
