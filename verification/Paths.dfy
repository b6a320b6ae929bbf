// Which requests the two caches look at.
module Paths {
  import opened Text

  predicate OccursAt(s: string, sub: string, i: int) {
    0 <= i <= |s| - |sub| && s[i..i + |sub|] == sub
  }

  // strings.Index, with |s| + 1 for absent
  function Index(s: string, sub: string): (i: nat)
    ensures i <= |s| + 1
    ensures i <= |s| ==> OccursAt(s, sub, i)
    ensures forall j: int :: 0 <= j < i ==> !OccursAt(s, sub, j)
  {
    FindFrom(s, sub, 0)
  }

  function FindFrom(s: string, sub: string, from: nat): (i: nat)
    requires from <= |s| + 1
    ensures from <= i <= |s| + 1
    ensures i <= |s| ==> OccursAt(s, sub, i)
    ensures forall j: int :: from <= j < i ==> !OccursAt(s, sub, j)
    decreases |s| + 1 - from
  {
    if from > |s| || OccursAt(s, sub, from) then from else FindFrom(s, sub, from + 1)
  }

  predicate Contains(s: string, sub: string) {
    Index(s, sub) <= |s|
  }

  predicate HasSuffix(s: string, suffix: string) {
    |suffix| <= |s| && s[|s| - |suffix|..] == suffix
  }

  predicate IsRead(verb: string) {
    ToLower(verb) == "get" || ToLower(verb) == "head"
  }

  predicate IsItemImagePath(path: string) {
    var p := ToLower(path);
    var i := Index(p, "/items/");
    !Contains(p, "/users/") && i <= |p| && Contains(p[i..], "/images/")
  }

  predicate IsCacheableRequest(verb: string, path: string) {
    IsRead(verb) && IsItemImagePath(path)
  }

  predicate IsLibraryPath(path: string) {
    var p := ToLower(path);
    || Contains(p, "/items/resume") || Contains(p, "/shows/nextup") || Contains(p, "/items/latest")
    || (Contains(p, "/users/") && HasSuffix(p, "/views"))
  }

  predicate IsLibraryRequest(verb: string, path: string) {
    IsRead(verb) && IsLibraryPath(path)
  }

  // The requests after which the token's cached library answers are dropped.
  predicate IsInvalidateRequest(verb: string, path: string) {
    var v, p := ToUpper(verb), ToLower(path);
    && (v == "POST" || v == "DELETE" || v == "PUT")
    && (|| Contains(p, "/sessions/playing") || Contains(p, "/playeditems") || Contains(p, "/favoriteitems")
        || Contains(p, "/userdata") || Contains(p, "/rating"))
  }
}
