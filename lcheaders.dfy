/** The middleware's header lower-casing: every request header is also made
    available under its lower-case name, by writing into the header map
    while ranging over it. */
module LowercaseHeaders {
  import opened Text

  /** A request's header map: canonical names to their values. */
  type Header = map<string, seq<string>>

  /** The request the handler receives; the handler updates its header map
      in place. */
  class Request {
    var header: Header

    constructor (header: Header)
      ensures this.header == header
    {
      this.header := header;
    }
  }

  /** Every name of `before` is still present. */
  ghost predicate KeysKept(before: Header, after: Header)
  {
    forall k {:trigger k in after} :: k in before ==> k in after
  }

  /** The lower-case form of every name in `names` is present. */
  ghost predicate LowerFormsPresent(names: set<string>, after: Header)
  {
    forall k {:trigger ToLower(k)} :: k in names ==> ToLower(k) in after
  }

  /** `key` is the lower-case form of a name of `before`. */
  ghost predicate IsLowerFormOf(before: Header, key: string)
  {
    exists k {:trigger ToLower(k)} :: k in before && ToLower(k) == key
  }

  /** The lower-case form of every name of `before` outside `pending` is
      present. */
  ghost predicate LowerFormsPresentExcept(before: Header, pending: set<string>, after: Header)
  {
    forall k {:trigger ToLower(k)} :: k in before && k !in pending ==> ToLower(k) in after
  }

  /** Every name not in `before` is the lower-case form of one that is. */
  ghost predicate OnlyLowerFormsAdded(before: Header, after: Header)
  {
    forall key :: key in after && key !in before ==> IsLowerFormOf(before, key)
  }

  /** `vals` are the values of some name of `before` with the same
      lower-case form as `key`. */
  ghost predicate HeldByVariant(before: Header, key: string, vals: seq<string>)
  {
    exists k {:trigger ToLower(k)} :: k in before && ToLower(k) == ToLower(key) && vals == before[k]
  }

  /** Every name holds the values of a name of `before` with the same
      lower-case form. */
  ghost predicate ValuesFromVariants(before: Header, after: Header)
  {
    forall key {:trigger after[key]} :: key in after ==> HeldByVariant(before, key, after[key])
  }

  /** No two names share a lower-case form. */
  ghost predicate NoCollision(h: Header)
  {
    forall k1, k2 {:trigger ToLower(k1), ToLower(k2)} :: k1 in h && k2 in h && ToLower(k1) == ToLower(k2) ==> k1 == k2
  }

  /** Every name's lower-case form is present with the same values. */
  ghost predicate Stable(h: Header)
  {
    forall k {:trigger ToLower(k)} :: k in h ==> ToLower(k) in h && h[ToLower(k)] == h[k]
  }

  /** Where the names of `h` come from: `source` maps every name to a name
      of `before` with the same lower-case form whose values it holds (a
      name that is not in lower case is only ever its own source), and
      `origin` maps every added name to a name of `before` it is the
      lower-case form of. */
  ghost predicate Traced(before: Header, h: Header, source: map<string, string>, origin: map<string, string>)
  {
    && (forall key {:trigger key in source} :: key in h ==>
          && key in source && source[key] in before && ToLower(source[key]) == ToLower(key) && h[key] == before[source[key]]
          && (ToLower(key) != key ==> source[key] == key))
    && (forall key :: key in h && key !in before ==> key in origin && origin[key] in before && ToLower(origin[key]) == key)
  }

  /** Once a name that is not in lower case has been visited, its
      lower-case form holds the values of a name other than itself: a
      lower-case name never keeps its own values against a variant. */
  ghost predicate VariantsWin(before: Header, source: map<string, string>, pending: set<string>)
  {
    forall k {:trigger ToLower(k)} :: k in before && k !in pending && ToLower(k) != k ==>
      ToLower(k) in source && source[ToLower(k)] != ToLower(k)
  }

  /** `after` is what aliasing `before` can give, in whatever order the
      names are visited: the old names and their lower-case forms are
      present, every other name is the lower-case form of an old one, and
      every name holds the values of some old name with the same lower-case
      form. */
  ghost predicate Aliases(before: Header, after: Header)
  {
    && KeysKept(before, after)
    && LowerFormsPresent(before.Keys, after)
    && Traceable(before, after)
  }

  /** Some record traces every name of `after` back to `before`. */
  ghost predicate Traceable(before: Header, after: Header)
  {
    exists source, origin :: Traced(before, after, source, origin) && VariantsWin(before, source, {})
  }

  /** A record for a traceable map. */
  lemma TraceOf(before: Header, after: Header) returns (source: map<string, string>, origin: map<string, string>)
    requires Traceable(before, after)
    ensures Traced(before, after, source, origin) && VariantsWin(before, source, {})
  {
    source, origin :| Traced(before, after, source, origin) && VariantsWin(before, source, {});
  }

  /** Visiting name `k` keeps the loop's record. */
  lemma TraceStep(before: Header, h: Header, source: map<string, string>, origin: map<string, string>, k: string)
    requires Traced(before, h, source, origin) && k in before && k in h
    ensures Traced(before, h[ToLower(k) := h[k]], source[ToLower(k) := source[k]], origin[ToLower(k) := k])
  {
    var lc := ToLower(k);
    var h', source', origin' := h[lc := h[k]], source[lc := source[k]], origin[lc := k];
    assert k in source;
    ToLowerIdempotent(k);
    forall key | key in h'
      ensures key in source' && source'[key] in before && ToLower(source'[key]) == ToLower(key)
      ensures h'[key] == before[source'[key]]
    {
      if key != lc {
        assert key in source;
      }
    }
  }

  /** Visiting name `k` writes the values of a variant other than its
      lower-case form there whenever `k` is not in lower case, and leaves
      that form's source alone otherwise. */
  lemma VariantsStep(before: Header, h: Header, source: map<string, string>, origin: map<string, string>,
                     remaining: set<string>, k: string)
    requires Traced(before, h, source, origin) && VariantsWin(before, source, remaining)
    requires k in remaining && k in before && k in h
    ensures VariantsWin(before, source[ToLower(k) := source[k]], remaining - {k})
  {
    var lc := ToLower(k);
    assert k in source;
    if lc != k {
      assert source[k] == k;
    }
  }

  /** Visiting name `k` keeps the old names and makes its lower-case form
      present. */
  lemma PresenceStep(before: Header, remaining: set<string>, h: Header, k: string, v: seq<string>)
    requires KeysKept(before, h) && LowerFormsPresentExcept(before, remaining, h)
    ensures KeysKept(before, h[ToLower(k) := v])
    ensures LowerFormsPresentExcept(before, remaining - {k}, h[ToLower(k) := v])
  {
  }

  /** Taking a member out of a set makes it smaller. */
  lemma Shrinks(remaining: set<string>, k: string)
    requires k in remaining
    ensures |remaining - {k}| < |remaining|
  {
  }

  /** LCHeaders: for every name of the request's headers, its current
      values are written under its lower-case form (the header map is
      shared, so the writes land in the request's own map). Names added during the
      walk are lower-case already, and visiting one writes its own values back
      to it, so only the names present at the start are visited. A map that
      has every alias already is left as it is. */
  method LCHeaders(r: Request)
    modifies r
    ensures Aliases(old(r.header), r.header)
    ensures Stable(old(r.header)) ==> r.header == old(r.header)
  {
    ghost var before := r.header;
    ghost var source: map<string, string> := map k | k in before :: k;
    ghost var origin: map<string, string> := map[];
    var h := r.header;
    var remaining := h.Keys;
    while remaining != {}
      invariant remaining <= before.Keys
      invariant KeysKept(before, h) && LowerFormsPresentExcept(before, remaining, h)
      invariant Traced(before, h, source, origin) && VariantsWin(before, source, remaining)
      decreases |remaining|
    {
      var k :| k in remaining;
      var v := h[k];
      var lcKey := ToLower(k);
      TraceStep(before, h, source, origin, k);
      VariantsStep(before, h, source, origin, remaining, k);
      PresenceStep(before, remaining, h, k, v);
      h := h[lcKey := v];
      source, origin := source[lcKey := source[k]], origin[lcKey := k];
      Shrinks(remaining, k);
      remaining := remaining - {k};
    }
    if Stable(before) {
      StableIsFixedBy(before, h, source, origin);
    }
    Finished(before, h, source, origin);
    r.header := h;
  }

  /** When no name remains, the record gives the specification. */
  lemma Finished(before: Header, h: Header, source: map<string, string>, origin: map<string, string>)
    requires KeysKept(before, h) && LowerFormsPresentExcept(before, {}, h)
    requires Traced(before, h, source, origin) && VariantsWin(before, source, {})
    ensures Aliases(before, h)
  {
    assert Traceable(before, h);
  }

  /** A map that has every alias already is the only result aliasing it
      can give: every case variant of a name holds the same values as its
      lower-case form, so nothing is added and nothing overwritten. */
  lemma StableIsFixed(before: Header, after: Header)
    requires Stable(before) && KeysKept(before, after) && Traceable(before, after)
    ensures after == before
  {
    var source, origin := TraceOf(before, after);
    StableIsFixedBy(before, after, source, origin);
  }

  /** StableIsFixed, given the record. */
  lemma StableIsFixedBy(before: Header, after: Header, source: map<string, string>, origin: map<string, string>)
    requires Stable(before) && KeysKept(before, after) && Traced(before, after, source, origin)
    ensures after == before
  {
    StableKeys(before, after, source, origin);
    SameEntries(before, after);
  }

  /** Every name of a result of aliasing a map that has every alias. */
  lemma StableKeys(before: Header, after: Header, source: map<string, string>, origin: map<string, string>)
    requires Stable(before) && Traced(before, after, source, origin)
    ensures forall key :: key in after ==> key in before && after[key] == before[key]
  {
    forall key | key in after
      ensures key in before && after[key] == before[key]
    {
      StableKey(before, after, source, origin, key);
    }
  }

  /** Two maps with the same names and the same values under each are
      equal. */
  lemma SameEntries(before: Header, after: Header)
    requires KeysKept(before, after)
    requires forall key :: key in after ==> key in before && after[key] == before[key]
    ensures after == before
  {
    assert after.Keys == before.Keys;
  }

  /** One name of a result of aliasing a map that has every alias. */
  lemma StableKey(before: Header, after: Header, source: map<string, string>, origin: map<string, string>, key: string)
    requires Stable(before) && Traced(before, after, source, origin) && key in after
    ensures key in before && after[key] == before[key]
  {
    assert key in before;
    var k := source[key];
    assert k in before && ToLower(k) == ToLower(key) && after[key] == before[k];
    assert before[ToLower(k)] == before[k];
    assert before[ToLower(key)] == before[key];
  }

  /** Aliasing adds nothing but lower-case forms of old names, and every
      name holds the values of an old name with the same lower-case form. */
  lemma AliasesMeaning(before: Header, after: Header)
    requires Traceable(before, after)
    ensures OnlyLowerFormsAdded(before, after) && ValuesFromVariants(before, after)
  {
    var source, origin := TraceOf(before, after);
    forall key | key in after && key !in before
      ensures IsLowerFormOf(before, key)
    {
      assert origin[key] in before && ToLower(origin[key]) == key;
    }
    forall key | key in after
      ensures HeldByVariant(before, key, after[key])
    {
      assert key in source;
      var k := source[key];
      assert k in before && ToLower(k) == ToLower(key) && after[key] == before[k];
    }
  }

  /** Without two names sharing a lower-case form, a name keeps its values
      and its lower-case form holds exactly them. */
  lemma KeepsValues(before: Header, after: Header, k: string)
    requires Aliases(before, after) && NoCollision(before) && k in before
    ensures after[k] == before[k] && after[ToLower(k)] == before[k]
  {
    var source, origin := TraceOf(before, after);
    ToLowerIdempotent(k);
    assert k in after;
    assert k in source;
    assert source[k] in before;
    assert ToLower(source[k]) == ToLower(k);
    var lc := ToLower(k);
    assert lc in after;
    assert lc in source;
    assert source[lc] in before;
    assert ToLower(source[lc]) == ToLower(lc);
  }

  /** A name that was not there before is a lower-case form. */
  lemma AddedNameIsLower(before: Header, after: Header, key: string)
    requires Aliases(before, after) && key in after && key !in before
    ensures ToLower(key) == key
  {
    var source, origin := TraceOf(before, after);
    ToLowerIdempotent(origin[key]);
  }

  /** Without two names sharing a lower-case form, every name keeps its
      values and its lower-case form holds exactly them; the result has every
      alias, so a second pass changes nothing. */
  lemma AliasesWithoutCollision(before: Header, after: Header)
    requires Aliases(before, after) && NoCollision(before)
    ensures forall k :: k in before ==> after[k] == before[k] && after[ToLower(k)] == before[k]
    ensures Stable(after)
  {
    forall k | k in before
      ensures after[k] == before[k] && after[ToLower(k)] == before[k]
    {
      KeepsValues(before, after, k);
    }
    forall key | key in after
      ensures ToLower(key) in after && after[ToLower(key)] == after[key]
    {
      if key in before {
        KeepsValues(before, after, key);
      } else {
        AddedNameIsLower(before, after, key);
      }
    }
  }

  /** A name that is not in lower case keeps its values, and its lower-case
      form ends up holding the values of one of its variants that is not in
      lower case, whatever that form held before. */
  lemma LowerFormTakesVariant(before: Header, after: Header, k: string)
    requires Aliases(before, after)
    requires k in before && ToLower(k) != k
    ensures after[k] == before[k]
    ensures exists v {:trigger before[v]} :: v in before && ToLower(v) == ToLower(k) && ToLower(v) != v && after[ToLower(k)] == before[v]
  {
    var source, origin := TraceOf(before, after);
    var lc := ToLower(k);
    assert k in after && k in source;
    assert lc in after && lc in source;
    var v := source[lc];
    ToLowerIdempotent(k);
    assert v in before && ToLower(v) == lc && v != lc && after[lc] == before[v];
  }

  /** Two names differing only in case, one of them in lower case and no
      other variant present, end up with the same values: those of the name
      that is not in lower case. */
  lemma CaseVariantsShareValues(before: Header, after: Header, k1: string, k2: string)
    requires Aliases(before, after)
    requires k1 in before && k2 in before && ToLower(k1) == k2 && k1 != k2
    requires forall k :: k in before && ToLower(k) == k2 ==> k == k1 || k == k2
    ensures after[k1] == after[k2] == before[k1]
  {
    LowerFormTakesVariant(before, after, k1);
    var v :| v in before && ToLower(v) == k2 && ToLower(v) != v && after[k2] == before[v];
    ToLowerIdempotent(k1);
  }

  /** An empty header map stays empty. */
  lemma EmptyStaysEmpty(after: Header)
    requires Aliases(map[], after)
    ensures after == map[]
  {
    var empty: Header := map[];
    var source, origin := TraceOf(empty, after);
  }
}
