/** raygen/utils.py: the key normaliser `snake_case` and the in-place
    dictionary fill `complete_dict`. */
module Utils {
  import opened Text
  import opened Values

  /** The `_` insertions of the regular expression `(?<!^)(?=[A-Z])` after
      the first position: an `_` before every upper-case ASCII letter. */
  function UnderscoreUppers(t: string): string
  {
    if t == "" then ""
    else (if IsUpper(t[0]) then ['_', t[0]] else [t[0]]) + UnderscoreUppers(t[1..])
  }

  /** `re.sub(r"(?<!^)(?=[A-Z])", "_", s)`: the first character stays in
      front, and one `_` is inserted per upper-case letter after it. */
  function InsertUnderscores(s: string): (r: string)
    ensures s == "" ==> r == ""
    ensures s != "" ==> |r| == |s| + CountUpper(s[1..]) && r[0] == s[0]
  {
    if s == "" then ""
    else
      UnderscoreUppersLength(s[1..]);
      [s[0]] + UnderscoreUppers(s[1..])
  }

  /** `snake_case(s)`: camelCase to snake_case; the result has no upper-case
      ASCII letter. */
  function SnakeCase(s: string): (r: string)
    ensures NoUpper(r)
  {
    Lower(InsertUnderscores(s))
  }

  /** The number of upper-case ASCII letters in `s`. */
  function CountUpper(s: string): nat
  {
    if s == "" then 0 else (if IsUpper(s[0]) then 1 else 0) + CountUpper(s[1..])
  }

  lemma {:induction false} UnderscoreUppersLength(t: string)
    ensures |UnderscoreUppers(t)| == |t| + CountUpper(t)
  {
    if t != "" {
      UnderscoreUppersLength(t[1..]);
    }
  }

  /** `snake_case` adds exactly one `_` per upper-case letter after the first
      position and changes nothing else in length. */
  lemma SnakeCaseLength(s: string)
    ensures s == "" ==> SnakeCase(s) == ""
    ensures s != "" ==> |SnakeCase(s)| == |s| + CountUpper(s[1..])
  {
    if s != "" {
      UnderscoreUppersLength(s[1..]);
    }
  }

  /** The first character is only lower-cased: no `_` is put in front of it. */
  lemma SnakeCaseFirst(s: string)
    requires s != ""
    ensures SnakeCase(s)[0] == LowerChar(s[0])
  {
  }

  lemma {:induction false} UnderscoreUppersOfNoUpper(t: string)
    requires NoUpper(t)
    ensures UnderscoreUppers(t) == t
  {
    if t != "" {
      assert !IsUpper(t[0]);
      UnderscoreUppersOfNoUpper(t[1..]);
      assert [t[0]] + t[1..] == t;
    }
  }

  /** A key with no upper-case ASCII letter is left as it is. */
  lemma SnakeCaseOfNoUpper(s: string)
    requires NoUpper(s)
    ensures SnakeCase(s) == s
  {
    if s != "" {
      UnderscoreUppersOfNoUpper(s[1..]);
      assert [s[0]] + s[1..] == s;
    }
    LowerOfNoUpper(s);
  }

  /** Normalising a key twice is the same as normalising it once. */
  lemma SnakeCaseIdempotent(s: string)
    ensures SnakeCase(SnakeCase(s)) == SnakeCase(s)
  {
    SnakeCaseOfNoUpper(SnakeCase(s));
  }

  /** Two camelCase words become two words joined by `_`, as the directive
      name `schemaVersion` becomes the field name `schema_version`. */
  lemma SnakeCaseTwoWords(w: string, u: string)
    requires w != "" && NoUpper(w)
    requires u != "" && IsUpper(u[0]) && NoUpper(u[1..])
    ensures SnakeCase(w + u) == w + "_" + Lower(u)
  {
    calc {
      SnakeCase(w + u);
      Lower(InsertUnderscores(w + u));
      { InsertBeforeSecondWord(w, u); }
      Lower(w + "_" + u);
      { LowerAppend(w + "_", u); LowerAppend(w, "_"); LowerOfNoUpper(w); }
      w + "_" + Lower(u);
    }
  }

  lemma InsertBeforeSecondWord(w: string, u: string)
    requires w != "" && NoUpper(w)
    requires u != "" && IsUpper(u[0]) && NoUpper(u[1..])
    ensures InsertUnderscores(w + u) == w + "_" + u
  {
    UnderscoreUppersOfNoUpper(w[1..]);
    UnderscoreUppersOfNoUpper(u[1..]);
    assert UnderscoreUppers(u) == ['_', u[0]] + u[1..];
    assert (w + u)[1..] == w[1..] + u;
    UnderscoreUppersAppend(w[1..], u);
    assert [w[0]] + w[1..] == w;
    assert [u[0]] + u[1..] == u;
  }

  lemma {:induction false} UnderscoreUppersAppend(t: string, u: string)
    ensures UnderscoreUppers(t + u) == UnderscoreUppers(t) + UnderscoreUppers(u)
  {
    if t != "" {
      assert (t + u)[1..] == t[1..] + u;
      UnderscoreUppersAppend(t[1..], u);
    } else {
      assert t + u == u;
    }
  }

  /** Key `k` is one `complete_dict(a, b)` fills: `b` holds a truthy value
      for it while `a.get(k)` is falsy. */
  predicate Fills(a: map<string, Value>, b: map<string, Value>, k: string)
  {
    k in b && !Truthy(Get(a, k)) && Truthy(b[k])
  }

  /** `a` after the keys in `done` of `b` have been visited. */
  function CompletedOn(a: map<string, Value>, b: map<string, Value>, done: set<string>): map<string, Value>
  {
    map k | k in a.Keys + done && (k in a || Fills(a, b, k)) ::
      if k in done && Fills(a, b, k) then b[k] else a[k]
  }

  /** `a` after `complete_dict(a, b)`: exactly the keys `b` fills take `b`'s
      value (and are added when absent); every other key of `a` keeps its
      value and no other key appears. */
  function Completed(a: map<string, Value>, b: map<string, Value>): (r: map<string, Value>)
    ensures forall k :: Fills(a, b, k) ==> k in r && r[k] == b[k]
    ensures forall k :: !Fills(a, b, k) ==> (k in r <==> k in a)
    ensures forall k :: !Fills(a, b, k) && k in a ==> r[k] == a[k]
  {
    CompletedOn(a, b, b.Keys)
  }

  /** A truthy value in `a` is never replaced: the command-line value beats
      the document's. */
  lemma CompletedKeepsTruthy(a: map<string, Value>, b: map<string, Value>, k: string)
    requires Truthy(Get(a, k))
    ensures Get(Completed(a, b), k) == Get(a, k)
  {
  }

  /** A falsy value in `a` is replaced by a truthy one in `b`. */
  lemma CompletedFills(a: map<string, Value>, b: map<string, Value>, k: string)
    requires !Truthy(Get(a, k)) && Truthy(Get(b, k))
    ensures Get(Completed(a, b), k) == b[k]
  {
  }

  /** Keys missing from `b`, or falsy there, are left exactly as they were. */
  lemma CompletedUntouched(a: map<string, Value>, b: map<string, Value>, k: string)
    requires k !in b || !Truthy(b[k])
    ensures (k in Completed(a, b) <==> k in a) && Get(Completed(a, b), k) == Get(a, k)
  {
  }

  /** Filling twice from the same `b` is the same as filling once. */
  lemma CompletedIdempotent(a: map<string, Value>, b: map<string, Value>)
    ensures Completed(Completed(a, b), b) == Completed(a, b)
  {
  }

  /** An empty `b` (what the NDJSON and CSV readers supply) changes nothing. */
  lemma CompletedEmpty(a: map<string, Value>)
    ensures Completed(a, map[]) == a
  {
  }

  /** A Python dict that `complete_dict` mutates in place. */
  class Dict {
    var entries: map<string, Value>

    constructor (entries: map<string, Value>)
      ensures this.entries == entries
    {
      this.entries := entries;
    }
  }

  /** `complete_dict(a, b)`: for every key of `b`, copy `b[key]` into `a` when
      `a.get(key)` is falsy and `b.get(key)` truthy; return `a` itself. */
  method CompleteDict(a: Dict, b: map<string, Value>) returns (r: Dict)
    modifies a
    ensures r == a
    ensures a.entries == Completed(old(a.entries), b)
  {
    ghost var a0 := a.entries;
    ghost var done: set<string> := {};
    var keys := b.Keys;
    while keys != {}
      invariant keys !! done && keys + done == b.Keys
      invariant a.entries == CompletedOn(a0, b, done)
      decreases keys
    {
      var key :| key in keys;
      assert Get(a.entries, key) == Get(a0, key);
      if !Truthy(Get(a.entries, key)) && Truthy(Get(b, key)) {
        a.entries := a.entries[key := b[key]];
      }
      keys := keys - {key};
      done := done + {key};
    }
    r := a;
  }
}
