/** Shared vocabulary of the model: optional values, controller replies,
    verified tokens, and the sequence and string operations the controllers
    perform on reference lists and request fields. */
module Common {

  /** A value that may be absent (`undefined` in a request body). */
  datatype Option<+T> = None | Some(value: T) {
    /** The value, or `default` when absent. */
    function GetOr(default: T): T {
      if Some? then value else default
    }
  }

  /** Either a value or an error tag. */
  datatype Result<+T, +E> = Success(value: T) | Failure(error: E)

  /** What a controller sends back: HTTP status, message tag, optional payload. */
  datatype Reply<M, T> = Reply(status: int, message: M, data: Option<T>)

  /** The outcome of verifying a signed, time-limited token. The signature
      check and the clock are outside the model; only the verdict is kept. */
  datatype Verified<P> = Missing | Expired | Malformed | Valid(payload: P)

  /** JavaScript truthiness of an optional string field: present and non-empty. */
  predicate Truthy(s: Option<string>) {
    s.Some? && |s.value| > 0
  }

  // ---------------------------------------------------------------------
  // Reference lists
  // ---------------------------------------------------------------------

  /** Every occurrence of `x` removed, as Mongo's `$pull` and
      `Array.prototype.filter(y => y !== x)` do. */
  function RemoveAll<T(==)>(s: seq<T>, x: T): (r: seq<T>)
    ensures x !in r
    ensures multiset(r) == multiset(s)[x := 0]
    ensures |r| == |s| - multiset(s)[x]
  {
    if |s| == 0 then []
    else
      assert s == [s[0]] + s[1..];
      if s[0] == x then RemoveAll(s[1..], x)
      else [s[0]] + RemoveAll(s[1..], x)
  }

  /** Mongo's `$addToSet`: append `x` unless it is already there. */
  function AddToSet<T(==,!new)>(s: seq<T>, x: T): (r: seq<T>)
    ensures s <= r && |r| <= |s| + 1
    ensures x in r
    ensures forall y :: y in r <==> y in s || y == x
    ensures multiset(r)[x] == if x in s then multiset(s)[x] else 1
  {
    if x in s then s else s + [x]
  }

  /** JavaScript `indexOf`: the first position of `x`, or -1. */
  function IndexOf<T(==)>(s: seq<T>, x: T): (i: int)
    ensures -1 <= i < |s|
    ensures i == -1 <==> x !in s
    ensures 0 <= i ==> s[i] == x && x !in s[..i]
  {
    if |s| == 0 then -1
    else if s[0] == x then 0
    else
      var j := IndexOf(s[1..], x);
      if j == -1 then -1
      else
        assert s[..j + 1] == [s[0]] + s[1..][..j];
        j + 1
  }

  /** JavaScript `splice(i, 1)`: drop the entry at position `i`. */
  function RemoveAt<T>(s: seq<T>, i: nat): (r: seq<T>)
    requires i < |s|
    ensures |r| == |s| - 1
    ensures r[..i] == s[..i]
    ensures forall k :: i <= k < |r| ==> r[k] == s[k + 1]
  {
    s[..i] + s[i + 1..]
  }

  /** `a` is `b` with some entries left out, the rest in their order. */
  predicate IsSubsequence<T(==)>(a: seq<T>, b: seq<T>)
    decreases |b|
  {
    if |a| == 0 then true
    else if |b| == 0 then false
    else if a[0] == b[0] then IsSubsequence(a[1..], b[1..])
    else IsSubsequence(a, b[1..])
  }

  /** The references of `ids` whose target exists in `m`, in list order:
      what Mongoose's `populate` leaves of an array of references. Each
      existing reference keeps its multiplicity and every dangling one is
      dropped. */
  function KeepPresent<K(!new), V>(ids: seq<K>, m: map<K, V>): (r: seq<K>)
    ensures forall k :: k in r <==> k in ids && k in m
    ensures forall k :: multiset(r)[k] == if k in m then multiset(ids)[k] else 0
    ensures IsSubsequence(r, ids)
    ensures |r| <= |ids|
    ensures (forall k :: k in ids ==> k in m) ==> r == ids
  {
    if |ids| == 0 then []
    else
      var rest := KeepPresent(ids[1..], m);
      assert ids == [ids[0]] + ids[1..];
      if ids[0] in m then
        var r := [ids[0]] + rest;
        assert r[1..] == rest;
        r
      else
        assert |rest| > 0 ==> rest[0] in m;
        rest
  }

  // ---------------------------------------------------------------------
  // Strings
  // ---------------------------------------------------------------------

  /** The whitespace that JavaScript's `trim` removes, restricted to the
      ASCII controls, the space, NBSP, the BOM and the line separators. */
  predicate IsSpace(c: char) {
    c == ' ' || c == '\t' || c == '\n' || c == '\r' || c == '\U{000B}' || c == '\U{000C}'
    || c == '\U{00A0}' || c == '\U{FEFF}' || c == '\U{2028}' || c == '\U{2029}'
  }

  /** Leading whitespace removed. */
  function TrimStart(s: string): (r: string)
    ensures |r| <= |s| && r == s[|s| - |r|..]
    ensures forall i :: 0 <= i < |s| - |r| ==> IsSpace(s[i])
    ensures |r| > 0 ==> !IsSpace(r[0])
  {
    if |s| > 0 && IsSpace(s[0]) then TrimStart(s[1..]) else s
  }

  /** Trailing whitespace removed. */
  function TrimEnd(s: string): (r: string)
    ensures |r| <= |s| && r == s[..|r|]
    ensures forall i :: |r| <= i < |s| ==> IsSpace(s[i])
    ensures |r| > 0 ==> !IsSpace(r[|r| - 1])
  {
    if |s| > 0 && IsSpace(s[|s| - 1]) then TrimEnd(s[..|s| - 1]) else s
  }

  /** JavaScript `trim`: the longest infix that neither starts nor ends
      with whitespace. */
  function Trim(s: string): (r: string)
    ensures |r| <= |s|
    ensures |r| > 0 ==> !IsSpace(r[0]) && !IsSpace(r[|r| - 1])
  {
    TrimEnd(TrimStart(s))
  }

  /** The trimmed string is the part of `s` between its leading and its
      trailing whitespace. */
  lemma TrimIsInfix(s: string)
    ensures var k := |s| - |TrimStart(s)|;
            && k + |Trim(s)| <= |s| && Trim(s) == s[k..k + |Trim(s)|]
            && (forall i :: 0 <= i < k ==> IsSpace(s[i]))
            && (forall i :: k + |Trim(s)| <= i < |s| ==> IsSpace(s[i]))
  {
    var front := TrimStart(s);
    var k := |s| - |front|;
    var r := TrimEnd(front);
    assert r == s[k..k + |r|];
    forall i | k + |r| <= i < |s|
      ensures IsSpace(s[i])
    {
      assert s[i] == front[i - k];
    }
  }

  /** A string that neither starts nor ends with whitespace is its own trim. */
  lemma TrimFixed(s: string)
    requires |s| > 0 ==> !IsSpace(s[0]) && !IsSpace(s[|s| - 1])
    ensures Trim(s) == s
  {
    var u := TrimStart(s);
    if |s| > 0 {
      assert |u| == |s|;
    }
    assert u == s;
    var v := TrimEnd(u);
    if |u| > 0 {
      assert |v| == |u|;
    }
  }

  /** Trimming a trimmed string changes nothing. */
  lemma TrimIdempotent(s: string)
    ensures Trim(Trim(s)) == Trim(s)
  {
    TrimFixed(Trim(s));
  }

  /** JavaScript `toLowerCase` on the ASCII letters; other characters are kept. */
  function ToLower(s: string): (r: string)
    ensures |r| == |s|
    ensures forall i :: 0 <= i < |s| && !('A' <= s[i] <= 'Z') ==> r[i] == s[i]
    ensures forall i :: 0 <= i < |r| ==> !('A' <= r[i] <= 'Z')
  {
    seq(|s|, i requires 0 <= i < |s| =>
      if 'A' <= s[i] <= 'Z' then (s[i] as int + 32) as char else s[i])
  }

  /** Lower-casing changes nothing in a string without capitals. */
  lemma ToLowerFixed(s: string)
    requires forall i :: 0 <= i < |s| ==> !('A' <= s[i] <= 'Z')
    ensures ToLower(s) == s
  {
  }

  /** Whitespace is not a capital, so lower-casing keeps a character's
      whitespace status. */
  lemma ToLowerKeepsSpace(s: string)
    ensures forall i :: 0 <= i < |s| ==> (IsSpace(ToLower(s)[i]) <==> IsSpace(s[i]))
  {
  }

  /** Lower-casing commutes with removing leading whitespace. */
  lemma {:induction false} TrimStartToLower(s: string)
    ensures TrimStart(ToLower(s)) == ToLower(TrimStart(s))
    decreases |s|
  {
    ToLowerKeepsSpace(s);
    if |s| > 0 && IsSpace(s[0]) {
      assert ToLower(s)[1..] == ToLower(s[1..]);
      TrimStartToLower(s[1..]);
    }
  }

  /** Lower-casing commutes with removing trailing whitespace. */
  lemma {:induction false} TrimEndToLower(s: string)
    ensures TrimEnd(ToLower(s)) == ToLower(TrimEnd(s))
    decreases |s|
  {
    ToLowerKeepsSpace(s);
    if |s| > 0 && IsSpace(s[|s| - 1]) {
      assert ToLower(s)[..|s| - 1] == ToLower(s[..|s| - 1]);
      TrimEndToLower(s[..|s| - 1]);
    }
  }

  /** Trimming and lower-casing commute. */
  lemma TrimToLower(s: string)
    ensures Trim(ToLower(s)) == ToLower(Trim(s))
  {
    TrimStartToLower(s);
    TrimEndToLower(TrimStart(s));
  }
}
