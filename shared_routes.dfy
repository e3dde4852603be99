/** shared/routes.ts: the paths of the `api` table and `buildUrl`, which
    fills `:key` placeholders of a path from a parameter object. */
module SharedRoutes {
  import opened Schema

  // The paths of the `api` table.
  const RegisterPath: string := "/api/register"
  const LoginPath: string := "/api/login"
  const LogoutPath: string := "/api/logout"
  const CurrentUserPath: string := "/api/user"
  const ProfilesPath: string := "/api/profiles"            // create and list
  const ProfilePath: string := "/api/profiles/:id"
  const MyProfilePath: string := "/api/my-profile"
  const InterestsPath: string := "/api/interests"          // send and list
  const InterestPath: string := "/api/interests/:id"       // update
  const MessagesPath: string := "/api/messages"            // send
  const MessagesWithPath: string := "/api/messages/:userId"
  const ConversationsPath: string := "/api/conversations"
  const AdminUsersPath: string := "/api/admin/users"

  /** The statuses the declared update input admits. The server never
      consults this list (see Routes.UpdateInterestHandler). */
  const UpdateStatuses: seq<string> := ["accepted", "rejected"]

  /** A parameter value: `string | number` (numbers are modelled as integers). */
  datatype ParamValue = Str(s: string) | Num(n: int)

  // ---------------------------------------------------------------------
  // String(value)
  // ---------------------------------------------------------------------

  predicate IsDigit(c: char) {
    '0' <= c <= '9'
  }

  function DigitChar(d: nat): (c: char)
    requires d < 10
    ensures IsDigit(c) && c as int - '0' as int == d
  {
    ('0' as int + d) as char
  }

  /** Decimal rendering of a natural number, most significant digit first. */
  function Decimal(n: nat): (r: string)
    ensures |r| >= 1
    ensures forall i :: 0 <= i < |r| ==> IsDigit(r[i])
    ensures r[0] == '0' ==> n == 0
  {
    if n < 10 then [DigitChar(n)] else Decimal(n / 10) + [DigitChar(n % 10)]
  }

  /** The number a string of decimal digits denotes. */
  function DigitsValue(s: string): nat
    requires forall i :: 0 <= i < |s| ==> IsDigit(s[i])
  {
    if s == [] then 0
    else
      assert IsDigit(s[|s| - 1]);
      DigitsValue(s[..|s| - 1]) * 10 + (s[|s| - 1] as int - '0' as int)
  }

  /** Reading the rendering back gives the number. */
  lemma {:induction false} DecimalRoundTrip(n: nat)
    ensures DigitsValue(Decimal(n)) == n
  {
    if n >= 10 {
      DecimalRoundTrip(n / 10);
      var r := Decimal(n);
      assert r[..|r| - 1] == Decimal(n / 10);
    }
  }

  /** `String(value)`. */
  function ToJsString(v: ParamValue): (r: string)
    ensures v.Num? ==> '$' !in r
    ensures v.Num? && v.n >= 0 ==> (forall i :: 0 <= i < |r| ==> IsDigit(r[i])) && DigitsValue(r) == v.n
    ensures v.Num? && v.n < 0 ==>
      && |r| >= 2 && r[0] == '-'
      && (forall i :: 1 <= i < |r| ==> IsDigit(r[i]))
      && DigitsValue(r[1..]) == -v.n
    ensures v.Str? ==> r == v.s
  {
    match v
    case Str(s) => s
    case Num(n) =>
      if n < 0 then
        DecimalRoundTrip(-n);
        assert ("-" + Decimal(-n))[1..] == Decimal(-n);
        "-" + Decimal(-n)
      else DecimalRoundTrip(n); Decimal(n)
  }

  // ---------------------------------------------------------------------
  // includes / indexOf / replace with a string pattern
  // ---------------------------------------------------------------------

  predicate OccursAt(s: string, pat: string, i: nat) {
    i + |pat| <= |s| && s[i..i + |pat|] == pat
  }

  /** The first occurrence of `pat` at or after `i`. */
  function IndexFrom(s: string, pat: string, i: nat): (r: Option<nat>)
    decreases |s| - i
    ensures r.Some? ==> i <= r.value && OccursAt(s, pat, r.value)
    ensures r.Some? ==> forall j: nat :: i <= j < r.value ==> !OccursAt(s, pat, j)
    ensures r.None? ==> forall j: nat :: i <= j ==> !OccursAt(s, pat, j)
  {
    if i + |pat| > |s| then None
    else if s[i..i + |pat|] == pat then Some(i)
    else IndexFrom(s, pat, i + 1)
  }

  /** `s.indexOf(pat)`, absent for -1. */
  function IndexOf(s: string, pat: string): Option<nat> {
    IndexFrom(s, pat, 0)
  }

  /** `s.includes(pat)`. */
  predicate Includes(s: string, pat: string) {
    IndexOf(s, pat).Some?
  }

  /** An occurrence with none before it is the one indexOf finds. */
  lemma IndexOfIsFirst(s: string, pat: string, k: nat)
    requires OccursAt(s, pat, k)
    requires forall j: nat :: j < k ==> !OccursAt(s, pat, j)
    ensures IndexOf(s, pat) == Some(k)
  {
  }

  /** The replacement patterns a replacement string may carry when the
      search pattern is a string: `$$` is `$`, `$&` the matched text,
      `` $` `` the text before the match, `$'` the text after it; every other
      character, and a `$` that starts none of these, is copied. */
  function Expand(rep: string, matched: string, before: string, after: string): (r: string)
    decreases |rep|
    ensures '$' !in rep ==> r == rep
  {
    if rep == [] then []
    else if rep[0] == '$' && |rep| >= 2 && rep[1] == '$' then "$" + Expand(rep[2..], matched, before, after)
    else if rep[0] == '$' && |rep| >= 2 && rep[1] == '&' then matched + Expand(rep[2..], matched, before, after)
    else if rep[0] == '$' && |rep| >= 2 && rep[1] == '`' then before + Expand(rep[2..], matched, before, after)
    else if rep[0] == '$' && |rep| >= 2 && rep[1] == '\'' then after + Expand(rep[2..], matched, before, after)
    else
      assert '$' !in rep ==> rep == [rep[0]] + rep[1..];
      [rep[0]] + Expand(rep[1..], matched, before, after)
  }

  /** `s.replace(pat, rep)` with a string pattern: only the first occurrence
      is replaced, and a replacement without `$` is inserted as it is. */
  function ReplaceFirst(s: string, pat: string, rep: string): (r: string)
    ensures IndexOf(s, pat).None? ==> r == s
    ensures IndexOf(s, pat).Some? && '$' !in rep ==>
      var k := IndexOf(s, pat).value;
      && OccursAt(s, pat, k)
      && (forall j: nat :: j < k ==> !OccursAt(s, pat, j))
      && r == s[..k] + rep + s[k + |pat|..]
  {
    match IndexOf(s, pat)
    case None => s
    case Some(k) =>
      s[..k] + Expand(rep, pat, s[..k], s[k + |pat|..]) + s[k + |pat|..]
  }

  /** `$&` puts the matched text back: replacing with it changes nothing. */
  lemma ReplaceWithMatchKeeps(s: string, pat: string)
    ensures ReplaceFirst(s, pat, "$&") == s
  {
    if IndexOf(s, pat).Some? {
      var k := IndexOf(s, pat).value;
      assert Expand("$&", pat, s[..k], s[k + |pat|..]) == pat + Expand("", pat, s[..k], s[k + |pat|..]);
      assert s[..k] + pat + s[k + |pat|..] == s;
    }
  }

  // ---------------------------------------------------------------------
  // buildUrl
  // ---------------------------------------------------------------------

  /** One `forEach` step: a key whose `:key` does not occur leaves the url
      alone; otherwise the first `:key` becomes `String(value)` (for a value
      without `$`, literally). */
  function ApplyParam(url: string, key: string, value: ParamValue): (r: string)
    ensures !Includes(url, ":" + key) ==> r == url
    ensures Includes(url, ":" + key) && '$' !in ToJsString(value) ==>
      var k := IndexOf(url, ":" + key).value;
      && OccursAt(url, ":" + key, k)
      && (forall j: nat :: j < k ==> !OccursAt(url, ":" + key, j))
      && r == url[..k] + ToJsString(value) + url[k + |key| + 1..]
  {
    if Includes(url, ":" + key) then
      ReplaceFirst(url, ":" + key, ToJsString(value))
    else url
  }

  /** The parameters applied in entry order, each to the previous result. */
  function ApplyAll(url: string, entries: seq<(string, ParamValue)>): string {
    if entries == [] then url
    else
      var last := entries[|entries| - 1];
      ApplyParam(ApplyAll(url, entries[..|entries| - 1]), last.0, last.1)
  }

  /** Applying two runs of entries is applying the second to the result of the first. */
  lemma {:induction false} ApplyAllAppend(url: string, e1: seq<(string, ParamValue)>, e2: seq<(string, ParamValue)>)
    ensures ApplyAll(url, e1 + e2) == ApplyAll(ApplyAll(url, e1), e2)
  {
    if e2 == [] {
      assert e1 + e2 == e1;
    } else {
      var e2' := e2[..|e2| - 1];
      ApplyAllAppend(url, e1, e2');
      assert (e1 + e2)[..|e1 + e2| - 1] == e1 + e2';
      assert (e1 + e2)[|e1 + e2| - 1] == e2[|e2| - 1];
    }
  }

  /** `buildUrl(path, params)`: `params` absent or empty leaves `path` as it is. */
  method BuildUrl(path: string, params: Option<seq<(string, ParamValue)>>) returns (url: string)
    ensures params.None? || params == Some([]) ==> url == path
    ensures params.Some? ==> url == ApplyAll(path, params.value)
  {
    url := path;
    if params.Some? {
      var entries := params.value;
      var k := 0;
      while k < |entries|
        invariant 0 <= k <= |entries|
        invariant url == ApplyAll(path, entries[..k])
      {
        var (key, value) := entries[k];
        if Includes(url, ":" + key) {
          url := ReplaceFirst(url, ":" + key, ToJsString(value));
        }
        assert entries[..k + 1][..k] == entries[..k];
        k := k + 1;
      }
      assert entries[..k] == entries;
    }
  }

  /** A placeholder with no ':' before it is the one a parameter fills:
      `prefix + ":key" + rest` becomes `prefix`, the expanded value, `rest`. */
  lemma FillFirstPlaceholder(prefix: string, key: string, rest: string, v: ParamValue)
    requires ':' !in prefix
    ensures ApplyParam(prefix + ":" + key + rest, key, v) ==
            prefix + Expand(ToJsString(v), ":" + key, prefix, rest) + rest
  {
    var pat := ":" + key;
    var url := prefix + ":" + key + rest;
    assert url == prefix + pat + rest;
    assert url[|prefix|..|prefix| + |pat|] == pat;
    forall j: nat | j < |prefix| ensures !OccursAt(url, pat, j) {
      assert url[j] == prefix[j];
    }
    IndexOfIsFirst(url, pat, |prefix|);
    assert url[..|prefix|] == prefix;
    assert url[|prefix| + |pat|..] == rest;
  }

  /** For a value without `$` the placeholder becomes `String(value)` itself. */
  lemma FillFirstPlaceholderLiterally(prefix: string, key: string, rest: string, v: ParamValue)
    requires ':' !in prefix
    requires '$' !in ToJsString(v)
    ensures ApplyParam(prefix + ":" + key + rest, key, v) == prefix + ToJsString(v) + rest
  {
    FillFirstPlaceholder(prefix, key, rest, v);
  }

  /** The update call site: `buildUrl('/api/interests/:id', {id})` is
      '/api/interests/' followed by the id. */
  lemma InterestPathWithId(v: ParamValue)
    requires '$' !in ToJsString(v)
    ensures ApplyAll(InterestPath, [("id", v)]) == "/api/interests/" + ToJsString(v)
  {
    assert InterestPath == "/api/interests/" + ":" + "id" + "";
    FillFirstPlaceholderLiterally("/api/interests/", "id", "", v);
    assert [("id", v)][..0] == [];
  }

  /** Numeric ids, as the client passes them, are always substituted literally. */
  lemma InterestPathWithNumber(n: int)
    ensures ApplyAll(InterestPath, [("id", Num(n))]) == "/api/interests/" + ToJsString(Num(n))
  {
    InterestPathWithId(Num(n));
  }

  /** A parameter whose value is the string `$&` leaves any url as it is. */
  lemma ApplyMatchKeeps(url: string, key: string)
    ensures ApplyParam(url, key, Str("$&")) == url
  {
    ReplaceWithMatchKeeps(url, ":" + key);
  }

  /** A string value is a replacement pattern: `$&` puts the placeholder back. */
  lemma DollarAmpersandRestoresPlaceholder()
    ensures ApplyAll(InterestPath, [("id", Str("$&"))]) == InterestPath
  {
    var entries := [("id", Str("$&"))];
    assert entries[..0] == [];
    ApplyMatchKeeps(InterestPath, "id");
  }
}
