/** Where a context's map is kept: `layout_path` in `crates/kubernation/src/layout_io.rs`, and the
    names `save` and `load` derive from it. A name here is one component of the layouts directory. */
module LayoutName {
  import opened Prelude

  predicate SafeChar(c: char) {
    'a' <= c <= 'z' || 'A' <= c <= 'Z' || '0' <= c <= '9' || c == '-' || c == '_' || c == '.'
  }

  /** Kept are the ASCII digits, capitals and small letters, and three characters besides. */
  lemma SafeCharsAre(c: char)
    ensures SafeChar(c) <==>
      var x := c as int; 48 <= x < 58 || 65 <= x < 91 || 97 <= x < 123 || x in {0x2D, 0x2E, 0x5F}
  {
  }

  function Blurred(c: char): char {
    if SafeChar(c) then c else '_'
  }

  function Blur(s: string): (r: string)
    ensures |r| == |s| && forall i :: 0 <= i < |s| ==> r[i] == Blurred(s[i])
  {
    if s == "" then "" else [Blurred(s[0])] + Blur(s[1..])
  }

  function StripFront(s: string): string {
    if s != "" && s[0] == '.' then StripFront(s[1..]) else s
  }

  function StripBack(s: string): string {
    if s != "" && s[|s| - 1] == '.' then StripBack(s[..|s| - 1]) else s
  }

  /** `trim_matches('.')`. */
  function StripDots(s: string): string {
    StripBack(StripFront(s))
  }

  function OrUnnamed(s: string): string {
    if s == "" then "unnamed" else s
  }

  /** The context's name made safe. */
  function Name(context: string): string {
    OrUnnamed(StripDots(Blur(context)))
  }

  function FileName(context: string): string {
    Name(context) + ".json"
  }

  // ---- One safe component --------------------------------------------------

  /** A name that needs no treatment: safe characters, and no dot at either end. */
  predicate SafeName(s: string) {
    s != "" && (forall i :: 0 <= i < |s| ==> SafeChar(s[i])) && s[0] != '.' && s[|s| - 1] != '.'
  }

  /** One component of a path that names a file: no separator, and neither `.` nor `..`. */
  predicate Component(s: string) {
    s != "" && s != "." && s != ".." && '/' !in s && '\\' !in s
  }

  lemma {:induction false} StripFrontKeeps(s: string, p: char -> bool)
    requires forall i :: 0 <= i < |s| ==> p(s[i])
    ensures var r := StripFront(s); (forall i :: 0 <= i < |r| ==> p(r[i])) && (r != "" ==> r[0] != '.')
  {
    if s != "" && s[0] == '.' {
      StripFrontKeeps(s[1..], p);
    }
  }

  lemma {:induction false} StripBackKeeps(s: string, p: char -> bool)
    requires forall i :: 0 <= i < |s| ==> p(s[i])
    ensures var r := StripBack(s); r <= s && (forall i :: 0 <= i < |r| ==> p(r[i])) && (r != "" ==> r[|r| - 1] != '.')
  {
    if s != "" && s[|s| - 1] == '.' {
      StripBackKeeps(s[..|s| - 1], p);
    }
  }

  lemma NameIsSafe(context: string)
    ensures SafeName(Name(context))
  {
    hide Blur, StripFront, StripBack;
    StripFrontKeeps(Blur(context), SafeChar);
    StripBackKeeps(StripFront(Blur(context)), SafeChar);
  }

  /** Whatever a context is called, its map is one file of the layouts directory: never a path out
      of it, never the directory itself, never hidden. */
  lemma FileIsOneComponent(context: string)
    ensures Component(FileName(context)) && FileName(context)[0] != '.'
    ensures '/' !in FileName(context) && '\\' !in FileName(context)
    ensures FileName(context) != "." && FileName(context) != ".."
    ensures |FileName(context)| > 5 && FileName(context)[|FileName(context)| - 5..] == ".json"
  {
    hide Name;
    NameIsSafe(context);
    var f, n := FileName(context), |Name(context)|;
    assert f[0] == Name(context)[0];
    assert forall i :: 0 <= i < |f| ==> SafeChar(f[i]);
    assert |f| - 5 == n && f[n..] == ".json";
  }

  /** Names that are safe already, and only those, are kept as they are; so making a name safe
      twice changes nothing. */
  lemma SafeNamesAreKept(s: string)
    ensures Name(s) == s <==> SafeName(s)
    ensures Name(Name(s)) == Name(s)
  {
    NameIsSafe(s);
    if SafeName(s) {
      SafeIsFixed(s);
    }
    SafeIsFixed(Name(s));
  }

  lemma SafeIsFixed(s: string)
    requires SafeName(s)
    ensures Name(s) == s
  {
    assert Blur(s) == s;
  }

  // ---- When two contexts share a file --------------------------------------

  predicate Blurs(c: char) {
    !SafeChar(c) || c == '_'
  }

  /** Equal but for characters that are written alike. */
  predicate Alike(a: string, b: string) {
    |a| == |b| && forall i :: 0 <= i < |a| ==> a[i] == b[i] || (Blurs(a[i]) && Blurs(b[i]))
  }

  lemma {:induction false} BlurThenStripFront(s: string)
    ensures StripFront(Blur(s)) == Blur(StripFront(s))
  {
    if s != "" && s[0] == '.' {
      assert Blur(s)[1..] == Blur(s[1..]);
      BlurThenStripFront(s[1..]);
    }
  }

  lemma {:induction false} BlurThenStripBack(s: string)
    ensures StripBack(Blur(s)) == Blur(StripBack(s))
  {
    if s != "" && s[|s| - 1] == '.' {
      assert Blur(s)[..|s| - 1] == Blur(s[..|s| - 1]);
      BlurThenStripBack(s[..|s| - 1]);
    }
  }

  /** Two contexts share a file exactly when, dots at the ends aside, they differ only where both
      have a character that is written as an underscore. */
  lemma SharedFileIff(a: string, b: string)
    ensures FileName(a) == FileName(b) <==> Alike(OrUnnamed(StripDots(a)), OrUnnamed(StripDots(b)))
  {
    hide Blur, StripFront, StripBack, SafeChar;
    NameOfStripped(a);
    NameOfStripped(b);
    var x, y := OrUnnamed(StripDots(a)), OrUnnamed(StripDots(b));
    assert FileName(a)[..|Name(a)|] == Name(a) && FileName(b)[..|Name(b)|] == Name(b);
    BlurIsAlike(x, y);
  }

  lemma NameOfStripped(s: string)
    ensures Name(s) == Blur(OrUnnamed(StripDots(s)))
  {
    hide StripFront, StripBack;
    BlurThenStripFront(s);
    BlurThenStripBack(StripFront(s));
    assert Blur("unnamed") == "unnamed";
  }

  lemma BlurIsAlike(x: string, y: string)
    ensures Blur(x) == Blur(y) <==> Alike(x, y)
  {
    hide Blur;
    if Blur(x) == Blur(y) {
      forall i | 0 <= i < |x|
        ensures x[i] == y[i] || (Blurs(x[i]) && Blurs(y[i]))
      {
        assert Blur(x)[i] == Blur(y)[i];
      }
    }
  }

  /** Two contexts of a kubeconfig that share one. */
  lemma SlashAndColonShare()
    ensures FileName("a/b") == FileName("a:b") == "a_b.json"
  {
    assert Blur("a/b") == "a_b" == Blur("a:b");
    SafeIsFixed("a_b");
    assert StripDots("a_b") == "a_b";
  }

  /** Safe names never share: the file tells which of them it belongs to. */
  lemma SafeNamesNeverShare(a: string, b: string)
    requires SafeName(a) && SafeName(b) && FileName(a) == FileName(b)
    ensures a == b
  {
    SafeIsFixed(a);
    SafeIsFixed(b);
    assert FileName(a)[..|a|] == a && FileName(b)[..|b|] == b;
  }

  // ---- The other names -----------------------------------------------------

  /** `path.with_extension(ext)` on a file name. */
  function WithExtension(file: string, ext: string): string {
    Stem(file) + "." + ext
  }

  /** The name up to its last dot, unless that dot begins it. */
  function Stem(file: string): string {
    var d := LastDot(file);
    if d <= 0 then file else file[..d]
  }

  function LastDot(s: string): (d: int)
    ensures -1 <= d < |s|
  {
    if s == "" then -1
    else if s[|s| - 1] == '.' then |s| - 1
    else LastDot(s[..|s| - 1])
  }

  function TmpName(context: string): string {
    "." + FileName(context) + ".tmp"
  }

  datatype Reason = Corrupt | OtherCluster

  function Extension(why: Reason, secs: nat): string {
    (if why == Corrupt then "json.corrupt-" else "json.other-") + Digits(secs)
  }

  /** Where `load` moves a file it will not use. */
  function AsideName(context: string, why: Reason, secs: nat): string {
    WithExtension(FileName(context), Extension(why, secs))
  }

  lemma {:induction false} DigitsAreDigits(n: nat)
    ensures Digits(n) != "" && forall i :: 0 <= i < |Digits(n)| ==> IsDigit(Digits(n)[i])
  {
    if n >= 10 {
      DigitsAreDigits(n / 10);
    }
  }

  lemma {:induction false} DigitsAreOnePerNumber(m: nat, n: nat)
    requires Digits(m) == Digits(n)
    ensures m == n
  {
    var a, b := Digits(m), Digits(n);
    assert a[|a| - 1] as int - '0' as int == m % 10 && b[|b| - 1] as int - '0' as int == n % 10;
    DigitsAreDigits(m / 10);
    DigitsAreDigits(n / 10);
    if m >= 10 {
      assert a[..|a| - 1] == Digits(m / 10);
      assert n >= 10;
      assert b[..|b| - 1] == Digits(n / 10);
      DigitsAreOnePerNumber(m / 10, n / 10);
    }
  }

  lemma {:induction false} LastDotIs(name: string, ext: string)
    requires '.' !in ext
    ensures LastDot(name + "." + ext) == |name|
    decreases |ext|
  {
    var s := name + "." + ext;
    if ext != "" {
      assert s[|s| - 1] == ext[|ext| - 1];
      assert s[..|s| - 1] == name + "." + ext[..|ext| - 1];
      LastDotIs(name, ext[..|ext| - 1]);
    }
  }

  lemma AsideSpelled(context: string, why: Reason, secs: nat)
    ensures AsideName(context, why, secs) == Name(context) + "." + Extension(why, secs)
  {
    hide Name, LastDot, Extension;
    LastDotIs(Name(context), "json");
    assert FileName(context) == Name(context) + "." + "json";
    NameIsSafe(context);
    assert FileName(context)[..|Name(context)|] == Name(context);
  }

  /** The names as they are spelled, for any safe context. */
  lemma NamesAreSpelled(s: string, secs: nat)
    requires SafeName(s)
    ensures FileName(s) == s + ".json" && TmpName(s) == "." + s + ".json.tmp"
    ensures AsideName(s, Corrupt, secs) == s + ".json.corrupt-" + Digits(secs)
    ensures AsideName(s, OtherCluster, secs) == s + ".json.other-" + Digits(secs)
  {
    hide Name, AsideName, SafeName, Digits;
    SafeIsFixed(s);
    AsideSpelled(s, Corrupt, secs);
    AsideSpelled(s, OtherCluster, secs);
    Joined(s, "json.corrupt-", Digits(secs));
    Joined(s, "json.other-", Digits(secs));
    assert "." + "json.corrupt-" == ".json.corrupt-" && "." + "json.other-" == ".json.other-";
    assert "." + (s + ".json") + ".tmp" == "." + s + ".json.tmp";
  }

  lemma Joined(a: string, b: string, c: string)
    ensures a + "." + (b + c) == a + ("." + b) + c
  {
  }

  /** A context of which nothing is left. */
  lemma NamelessContexts()
    ensures FileName("") == FileName("..") == "unnamed.json"
  {
    assert Blur("..") == ".." && ".."[1..] == "." && "."[1..] == "";
    assert StripFront(".") == "" && StripFront("..") == "";
  }

  /** No context's map is ever another's temporary file or a file moved aside. */
  lemma NamesNeverMeet(a: string, b: string, why: Reason, secs: nat)
    ensures TmpName(a) != FileName(b) && TmpName(a) != AsideName(b, why, secs) && AsideName(a, why, secs) != FileName(b)
    ensures TmpName(a)[0] == '.' && FileName(a) != "" && FileName(a)[0] != '.' && AsideName(a, why, secs) != ""
      && AsideName(a, why, secs)[0] != '.'
  {
    hide Name, AsideName, Digits;
    NameIsSafe(a);
    NameIsSafe(b);
    AsideSpelled(a, why, secs);
    AsideSpelled(b, why, secs);
    DigitsAreDigits(secs);
    var aside, file := AsideName(a, why, secs), FileName(b);
    assert aside[0] == Name(a)[0] && file[0] == Name(b)[0] && FileName(a)[0] == Name(a)[0];
    assert AsideName(b, why, secs)[0] == Name(b)[0];
    assert IsDigit(aside[|aside| - 1]) && file[|file| - 1] == 'n';
  }

  lemma {:induction false} SplitAtLast(x: string, d: string, y: string, e: string, mark: char)
    requires x + [mark] + d == y + [mark] + e && mark !in d && mark !in e
    ensures x == y && d == e
    decreases |d|
  {
    var s := x + [mark] + d;
    assert s == y + [mark] + e;
    assert d == "" ==> s[|s| - 1] == mark;
    assert e == "" ==> s[|s| - 1] == mark;
    assert d != "" ==> s[|s| - 1] == d[|d| - 1];
    assert e != "" ==> s[|s| - 1] == e[|e| - 1];
    if d == "" {
      assert s[..|s| - 1] == x && s[..|s| - 1] == y;
    } else {
      var d', e' := d[..|d| - 1], e[..|e| - 1];
      assert s[..|s| - 1] == x + [mark] + d' == y + [mark] + e';
      SplitAtLast(x, d', y, e', mark);
    }
  }

  function Mark(why: Reason): string {
    if why == Corrupt then ".json.corrupt" else ".json.other"
  }

  lemma MarksTell(x: string, why: Reason, y: string, because: Reason)
    requires x + Mark(why) == y + Mark(because)
    ensures x == y && why == because
  {
    var s := x + Mark(why);
    assert s[|s| - 1] == Mark(why)[|Mark(why)| - 1] == Mark(because)[|Mark(because)| - 1];
    assert s[..|x|] == x && s[..|y|] == y;
  }

  lemma AsideParts(context: string, why: Reason, secs: nat)
    ensures AsideName(context, why, secs) == (Name(context) + Mark(why)) + "-" + Digits(secs)
  {
    hide Name, AsideName, Digits;
    AsideSpelled(context, why, secs);
  }

  /** A file moved aside tells whose it was, why it was moved and in which second: two moves meet
      only if all three agree. */
  lemma AsideTellsAll(a: string, why: Reason, m: nat, b: string, because: Reason, n: nat)
    requires AsideName(a, why, m) == AsideName(b, because, n)
    ensures FileName(a) == FileName(b) && why == because && m == n
  {
    hide Name, AsideName, Digits, Mark;
    AsideParts(a, why, m);
    AsideParts(b, because, n);
    DigitsAreDigits(m);
    DigitsAreDigits(n);
    SplitAtLast(Name(a) + Mark(why), Digits(m), Name(b) + Mark(because), Digits(n), '-');
    DigitsAreOnePerNumber(m, n);
    MarksTell(Name(a), why, Name(b), because);
  }
}
