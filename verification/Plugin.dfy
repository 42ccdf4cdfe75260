/** The plugin: where the generated files of a proto file go. */
module Plugin {
  import opened Wrappers
  import opened Lines

  function Slashed(s: string): (r: string)
    ensures |r| == |s| && forall i | 0 <= i < |r| :: r[i] == if s[i] == '.' then '/' else s[i]
  {
    seq(|s|, i requires 0 <= i < |s| => if s[i] == '.' then '/' else s[i])
  }

  function PackageDir(packageName: string): string {
    Slashed(packageName) + if packageName == "" then "" else "/"
  }

  // The characters are overwritten in place.
  method ReplaceDots(a: array<char>)
    modifies a
    ensures a[..] == Slashed(old(a[..]))
  {
    for i := 0 to a.Length
      invariant forall k | 0 <= k < i :: a[k] == if old(a[k]) == '.' then '/' else old(a[k])
      invariant forall k | i <= k < a.Length :: a[k] == old(a[k])
    {
      if a[i] == '.' {
        a[i] := '/';
      }
    }
  }

  method KotlinPackageToDir(packageName: string) returns (dir: string)
    ensures dir == PackageDir(packageName)
  {
    var a := new char[|packageName|](i requires 0 <= i < |packageName| => packageName[i]);
    assert a[..] == packageName;
    ReplaceDots(a);
    dir := a[..];
    if dir != "" {
      dir := dir + "/";
    }
  }

  // The package is the class name up to its last dot, and empty if there is none.
  function ServiceKotlinPackage(className: string): string {
    if className == "" then ""
    else if className[|className| - 1] == '.' then className[..|className| - 1]
    else ServiceKotlinPackage(className[..|className| - 1])
  }

  lemma {:induction false} PackageIsBeforeLastDot(className: string, package: string, simple: string)
    requires '.' !in simple && className == package + "." + simple
    ensures ServiceKotlinPackage(className) == package
    decreases |simple|
  {
    if simple == "" {
      assert className[..|className| - 1] == package;
    } else {
      assert className[|className| - 1] == simple[|simple| - 1];
      var shorter := simple[..|simple| - 1];
      assert className[..|className| - 1] == package + "." + shorter;
      PackageIsBeforeLastDot(className[..|className| - 1], package, shorter);
    }
  }

  lemma {:induction false} NoDotNoPackage(className: string)
    requires '.' !in className
    ensures ServiceKotlinPackage(className) == ""
  {
    if className != "" {
      assert className[|className| - 1] in className;
      NoDotNoPackage(className[..|className| - 1]);
    }
  }

  // The interface, the client and the server of a service.
  function Suffix(k: nat): string {
    if k == 0 then "" else if k == 1 then "Client" else "Server"
  }

  function FileName(dir: string, service: string, k: nat): string {
    dir + (service + Suffix(k)) + ".kt"
  }

  method OpenFiles(packageName: string, services: seq<string>) returns (files: seq<string>)
    ensures |files| == 3 * |services|
    ensures forall i, k | 0 <= i < |services| && 0 <= k < 3 ::
              files[3 * i + k] == FileName(PackageDir(packageName), services[i], k)
  {
    var dir := KotlinPackageToDir(packageName);
    files := [];
    for i := 0 to |services|
      invariant |files| == 3 * i
      invariant forall j, k | 0 <= j < i && 0 <= k < 3 :: files[3 * j + k] == FileName(dir, services[j], k)
    {
      var service := services[i];
      files := files + [dir + service + ".kt"];
      files := files + [dir + (service + "Client") + ".kt"];
      files := files + [dir + (service + "Server") + ".kt"];
      assert service + "" == service;
    }
  }

  // A file lies in the directory of its package: split at slashes its path is the package's parts,
  // then the class name with the extension of Kotlin sources. It is relative unless the package
  // starts with a dot.
  lemma FileLiesInItsPackage(packageName: string, service: string, k: nat)
    requires '/' !in packageName && '/' !in service && k < 3
    ensures var file := FileName(PackageDir(packageName), service, k);
            var simple := service + (if k == 0 then ".kt" else if k == 1 then "Client.kt" else "Server.kt");
            && Pieces(file, "/") == Pieces(packageName, ".") + [simple]
            && |file| == |packageName| + (if packageName == "" then 0 else 1) + |simple|
            && (packageName != "" && packageName[0] != '.' ==> file[0] == packageName[0])
  {
    var simple := service + (if k == 0 then ".kt" else if k == 1 then "Client.kt" else "Server.kt");
    Associate(service, Suffix(k), ".kt");
    assert Suffix(k) + ".kt" == if k == 0 then ".kt" else if k == 1 then "Client.kt" else "Server.kt";
    Associate(PackageDir(packageName), service + Suffix(k), ".kt");
    NoSlash(service, Suffix(k) + ".kt");
    if packageName == "" {
      TopLevelFile(simple);
    } else {
      FileInDirectory(packageName, simple);
    }
  }

  lemma NoSlash(service: string, extension: string)
    requires '/' !in service && '/' !in extension
    ensures '/' !in service + extension
  {
  }

  lemma TopLevelFile(simple: string)
    requires '/' !in simple && simple != ""
    ensures PackageDir("") + simple == simple && Pieces(simple, "/") == Pieces("", ".") + [simple]
  {
    assert Slashed("") + "" == "" && [] + [simple] == [simple];
    RunIsOnePiece(simple, "/");
  }

  lemma FileInDirectory(packageName: string, simple: string)
    requires '/' !in packageName && packageName != "" && '/' !in simple && simple != ""
    ensures Pieces(PackageDir(packageName) + simple, "/") == Pieces(packageName, ".") + [simple]
    ensures packageName[0] != '.' ==> (PackageDir(packageName) + simple)[0] == packageName[0]
  {
    RunIsOnePiece(simple, "/");
    SlashedPieces(packageName);
    DelimiterCuts(Slashed(packageName), '/', simple, "/");
  }

  lemma {:induction false} SlashedPieces(s: string)
    requires '/' !in s
    ensures Pieces(Slashed(s), "/") == Pieces(s, ".")
    decreases |s|
  {
    if s != "" {
      var k := RunLength(s, ".");
      assert Slashed(s)[1..] == Slashed(s[1..]);
      if k == 0 {
        SlashedPieces(s[1..]);
      } else {
        assert forall i | 0 <= i < k :: s[i] in s && s[i] !in "./";
        RunLengthIs(Slashed(s), "/", k);
        assert Slashed(s)[..k] == s[..k] && Slashed(s)[k..] == Slashed(s[k..]);
        SlashedPieces(s[k..]);
      }
    }
  }

  predicate Distinct(names: seq<string>) {
    forall i, j | 0 <= i < j < |names| :: names[i] != names[j]
  }

  // One service is named like the client or the server class of another.
  predicate Shadows(a: string, b: string) {
    a == b + "Client" || a == b + "Server"
  }

  lemma FileNamesCollide(dir: string, a: string, k: nat, b: string, l: nat)
    ensures FileName(dir, a, k) == FileName(dir, b, l) <==> a + Suffix(k) == b + Suffix(l)
  {
    var x, y := a + Suffix(k), b + Suffix(l);
    if FileName(dir, a, k) == FileName(dir, b, l) {
      assert FileName(dir, a, k)[|dir|..|dir| + |x|] == x;
      assert FileName(dir, b, l)[|dir|..|dir| + |y|] == y;
    }
  }

  // Two class names are equal only for the same service and kind, or where one service shadows another.
  lemma SuffixedNamesCollide(a: string, k: nat, b: string, l: nat)
    requires k < 3 && l < 3
    ensures a + Suffix(k) == b + Suffix(l) <==>
            (k == l && a == b) || (k == 0 && l > 0 && a == b + Suffix(l)) || (l == 0 && k > 0 && b == a + Suffix(k))
  {
    var x, y := a + Suffix(k), b + Suffix(l);
    assert a + "" == a && b + "" == b;
    if k == l && x == y {
      assert x[..|a|] == a && y[..|b|] == b;
    }
    if k > 0 && l > 0 {
      LastLetter(a, k);
      LastLetter(b, l);
    }
  }

  lemma LastLetter(s: string, k: nat)
    requires 0 < k < 3
    ensures var x := s + Suffix(k); x[|x| - 1] == if k == 1 then 't' else 'r'
  {
  }

  // The files of distinct services are pairwise distinct if and only if no service shadows another.
  lemma FilesDistinctIff(dir: string, services: seq<string>)
    requires Distinct(services)
    ensures (forall i, k, j, l | 0 <= i < |services| && 0 <= j < |services| && 0 <= k < 3 && 0 <= l < 3
                                 && (i != j || k != l) ::
               FileName(dir, services[i], k) != FileName(dir, services[j], l)) <==>
            (forall i, j | 0 <= i < |services| && 0 <= j < |services| :: !Shadows(services[i], services[j]))
  {
    if i, j :| 0 <= i < |services| && 0 <= j < |services| && Shadows(services[i], services[j]) {
      var l := if services[i] == services[j] + "Client" then 1 else 2;
      SuffixedNamesCollide(services[i], 0, services[j], l);
      FileNamesCollide(dir, services[i], 0, services[j], l);
    }
    forall i, k, j, l | 0 <= i < |services| && 0 <= j < |services| && 0 <= k < 3 && 0 <= l < 3 && (i != j || k != l)
                        && FileName(dir, services[i], k) == FileName(dir, services[j], l)
      ensures Shadows(services[i], services[j]) || Shadows(services[j], services[i])
    {
      FileNamesCollide(dir, services[i], k, services[j], l);
      SuffixedNamesCollide(services[i], k, services[j], l);
    }
  }
}
