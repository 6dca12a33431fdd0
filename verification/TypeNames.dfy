/**
 Names of ROS types: the key form "pkg/Type", the full form "pkg/msg/Type", the
 two ways the code turns the second into the first, and the order of names.
 */
module TypeNames {

  predicate SlashFree(s: string) {
    '/' !in s
  }

  function Key(package: string, name: string): string {
    package + "/" + name
  }

  function FullName(package: string, name: string): string {
    package + "/msg/" + name
  }

  ghost predicate IsFullName(n: string) {
    exists p, b :: SlashFree(p) && SlashFree(b) && n == FullName(p, b)
  }

  // ----- splitting at the first two slashes -----------------------------------------------

  function FirstSlash(s: string): (i: nat)
    ensures i <= |s|
  {
    if s == [] || s[0] == '/' then 0 else 1 + FirstSlash(s[1..])
  }

  lemma {:induction false} FirstSlashAfter(p: string, rest: string)
    requires SlashFree(p)
    ensures FirstSlash(p + "/" + rest) == |p|
  {
    var s := p + "/" + rest;
    if p != "" {
      assert p[0] in p;
      assert SlashFree(p[1..]);
      assert s[1..] == p[1..] + "/" + rest;
      FirstSlashAfter(p[1..], rest);
    }
  }

  // `nested_type_name_to_key`: splitn(3, '/') and drop the middle part.
  function NestedKey(name: string): string {
    var i := FirstSlash(name);
    if i == |name| then name
    else
      var rest := name[i + 1..];
      var j := FirstSlash(rest);
      if j == |rest| then name else name[..i] + "/" + rest[j + 1..]
  }

  // The package of a key: everything in front of the first slash.
  function PackageOf(key: string): string {
    key[..FirstSlash(key)]
  }

  lemma PackageOfKey(p: string, name: string)
    requires SlashFree(p)
    ensures PackageOf(Key(p, name)) == p
  {
    FirstSlashAfter(p, name);
  }

  lemma SplitFullName(p: string, b: string)
    requires SlashFree(p)
    ensures NestedKey(FullName(p, b)) == Key(p, b)
  {
    hide FirstSlash;
    var n, rest := FullName(p, b), "msg" + "/" + b;
    assert n == p + "/" + rest;
    FirstSlashAfter(p, rest);
    assert n[|p| + 1..] == rest;
    FirstSlashAfter("msg", b);
    assert rest[4..] == b;
  }

  // ----- replacing the directory ------------------------------------------------------------

  predicate StartsWith(s: string, pattern: string) {
    |pattern| <= |s| && s[..|pattern|] == pattern
  }

  predicate Contains(s: string, pattern: string) {
    StartsWith(s, pattern) || (s != "" && Contains(s[1..], pattern))
  }

  // str::replace: every occurrence from left to right.
  function Replace(s: string, pattern: string, replacement: string): string
    requires pattern != ""
  {
    if StartsWith(s, pattern) then replacement + Replace(s[|pattern|..], pattern, replacement)
    else if s == "" then ""
    else [s[0]] + Replace(s[1..], pattern, replacement)
  }

  // The conversion inside `collect_nested_deps`.
  function ReplacedKey(name: string): string {
    if Contains(name, "/msg/") then Replace(name, "/msg/", "/")
    else if Contains(name, "/srv/") then Replace(name, "/srv/", "/")
    else name
  }

  lemma {:induction false} ReplaceNothing(s: string)
    requires SlashFree(s)
    ensures Replace(s, "/msg/", "/") == s
  {
    if s != "" {
      assert s[0] in s;
      assert !StartsWith(s, "/msg/") by {
        assert "/msg/"[0] == '/';
      }
      assert SlashFree(s[1..]);
      ReplaceNothing(s[1..]);
    }
  }

  lemma {:induction false} ReplaceFullName(p: string, b: string)
    requires SlashFree(p) && SlashFree(b)
    ensures Contains(FullName(p, b), "/msg/")
    ensures Replace(FullName(p, b), "/msg/", "/") == Key(p, b)
  {
    var n := FullName(p, b);
    if p == "" {
      assert n[..5] == "/msg/" && n[5..] == b;
      ReplaceNothing(b);
    } else {
      assert p[0] in p;
      assert !StartsWith(n, "/msg/") by {
        assert n[0] == p[0] && "/msg/"[0] == '/';
      }
      assert SlashFree(p[1..]);
      assert n[1..] == FullName(p[1..], b);
      ReplaceFullName(p[1..], b);
      assert Key(p, b) == [p[0]] + Key(p[1..], b);
    }
  }

  // Both conversions of a full name give the same key, and no other full name has that key.
  lemma ConversionsAgree(n: string)
    requires IsFullName(n)
    ensures NestedKey(n) == ReplacedKey(n)
  {
    var p, b :| SlashFree(p) && SlashFree(b) && n == FullName(p, b);
    SplitFullName(p, b);
    ReplaceFullName(p, b);
  }

  lemma KeysAreUnique(n: string, m: string)
    requires IsFullName(n) && IsFullName(m) && NestedKey(n) == NestedKey(m)
    ensures n == m
  {
    var p, b :| SlashFree(p) && SlashFree(b) && n == FullName(p, b);
    var q, c :| SlashFree(q) && SlashFree(c) && m == FullName(q, c);
    SplitFullName(p, b);
    SplitFullName(q, c);
    FirstSlashAfter(p, b);
    FirstSlashAfter(q, c);
    var k := Key(p, b);
    assert p == k[..|p|] == q && b == k[|p| + 1..] == c;
  }

  // ----- the order of a BTreeMap -------------------------------------------------------------

  predicate Less(a: string, b: string) {
    b != "" && (a == "" || a[0] < b[0] || (a[0] == b[0] && Less(a[1..], b[1..])))
  }

  lemma {:induction false} LessIsTotal(a: string, b: string)
    ensures Less(a, b) || a == b || Less(b, a)
    ensures !(Less(a, b) && Less(b, a)) && !Less(a, a)
  {
    if a != "" {
      LessIsTotal(a[1..], a[1..]);
    }
    if a != "" && b != "" && a[0] == b[0] {
      LessIsTotal(a[1..], b[1..]);
      if a[1..] == b[1..] {
        assert a == [a[0]] + a[1..] == b;
      }
    }
  }

  // The order of Rust's strings: a proper prefix first, otherwise the first difference decides.
  lemma {:induction false} LessExactly(a: string, b: string)
    ensures Less(a, b) <==>
      exists i :: (0 <= i <= |a| && i < |b| && a[..i] == b[..i] && (i == |a| || a[i] < b[i]))
  {
    if a != "" && b != "" && a[0] == b[0] {
      LessExactly(a[1..], b[1..]);
      if Less(a[1..], b[1..]) {
        var i :| 0 <= i <= |a[1..]| && i < |b[1..]| && a[1..][..i] == b[1..][..i]
          && (i == |a[1..]| || a[1..][i] < b[1..][i]);
        assert a[..i + 1] == [a[0]] + a[1..][..i] == [b[0]] + b[1..][..i] == b[..i + 1];
      }
      forall i | 0 <= i <= |a| && i < |b| && a[..i] == b[..i] && (i == |a| || a[i] < b[i]) ensures Less(a, b) {
        assert i > 0;
        assert a[1..][..i - 1] == a[..i][1..] == b[..i][1..] == b[1..][..i - 1];
      }
    } else if a == "" && b != "" {
      assert a[..0] == b[..0];
    } else if b != "" {
      assert a[..0] == b[..0];
      forall i | 0 < i <= |a| && i < |b| ensures a[..i] != b[..i] {
        assert a[..i][0] == a[0] && b[..i][0] == b[0];
      }
    }
  }

  lemma {:induction false} LessIsTransitive(a: string, b: string, c: string)
    requires Less(a, b) && Less(b, c)
    ensures Less(a, c)
  {
    if a != "" && a[0] == b[0] == c[0] {
      LessIsTransitive(a[1..], b[1..], c[1..]);
    }
  }

  predicate IsLeast(k: string, s: set<string>) {
    k in s && forall x <- s :: x == k || Less(k, x)
  }

  lemma {:induction false} LeastExists(s: set<string>)
    requires s != {}
    ensures exists k :: IsLeast(k, s)
  {
    var x :| x in s;
    if s == {x} {
      assert IsLeast(x, s);
    } else {
      LeastExists(s - {x});
      var k :| IsLeast(k, s - {x});
      LessIsTotal(x, k);
      if Less(k, x) {
        assert IsLeast(k, s);
      } else {
        forall y <- s ensures y == x || Less(x, y) {
          if y != x && y != k {
            LessIsTransitive(x, k, y);
          }
        }
        assert IsLeast(x, s);
      }
    }
  }

  lemma LeastIsUnique(s: set<string>)
    ensures forall k, l :: IsLeast(k, s) && IsLeast(l, s) ==> k == l
  {
    forall k, l | IsLeast(k, s) && IsLeast(l, s) ensures k == l {
      LessIsTotal(k, l);
    }
  }

  function Least(s: set<string>): (k: string)
    requires s != {}
    ensures IsLeast(k, s)
  {
    LeastExists(s);
    LeastIsUnique(s);
    var k :| IsLeast(k, s);
    k
  }

  predicate Increasing(names: seq<string>) {
    forall i, j | 0 <= i < j < |names| :: Less(names[i], names[j])
  }

  // The keys of a BTreeMap in iteration order.
  function Sorted(s: set<string>): (r: seq<string>)
    ensures Increasing(r) && forall x :: x in r <==> x in s
  {
    if s == {} then [] else [Least(s)] + Sorted(s - {Least(s)})
  }
}
