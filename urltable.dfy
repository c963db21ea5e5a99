/**
 * The short-code table `Record<string, UrlEntry>`: a JavaScript object whose
 * own keys are short codes and whose values are `{url, createdAt, clicks}`.
 * Both the file-backed store and the in-memory route keep one of these.
 *
 * `Table` is the value of such an object: its own keys in enumeration order
 * and the entry under each. `Record` is the object itself, updated in place.
 */
module UrlTable {
  import opened Wrappers
  import opened JsKeys

  datatype Entry = Entry(url: string, createdAt: string, clicks: int)

  datatype Table = Table(keys: seq<string>, urls: map<string, Entry>)

  /** The object literal `{}`. */
  const Empty: Table := Table([], map[])

  /**
   * The keys are exactly the entries' codes, each listed once, with the
   * array indices first and ascending (see `Ordered`).
   */
  ghost predicate WellFormed(t: Table)
  {
    && Ordered(t.keys)
    && forall k :: k in t.urls <==> k in t.keys
  }

  /** No two codes carry the same URL. */
  ghost predicate UniqueUrls(t: Table)
  {
    forall a, b :: a in t.urls && b in t.urls && a != b ==> t.urls[a].url != t.urls[b].url
  }

  /** Own-property lookup `obj[code]`: the entry, or nothing when `code` is not a key. */
  function Lookup(t: Table, code: string): Option<Entry>
  {
    if code in t.urls then Some(t.urls[code]) else None
  }

  /**
   * `obj[code] = e`: the entry under `code` becomes `e`. A new key is inserted
   * without moving the others: at the end, or among the array indices when it
   * is one.
   */
  function Put(t: Table, code: string, e: Entry): (r: Table)
    ensures WellFormed(t) ==> WellFormed(r)
    ensures code in t.keys ==> r.keys == t.keys
    ensures code !in t.keys ==> exists p :: 0 <= p <= |t.keys| && r.keys == t.keys[..p] + [code] + t.keys[p..]
    ensures code !in t.keys && !IsArrayIndex(code) ==> r.keys == t.keys + [code]
  {
    InsertKeyOrdered(t.keys, code);
    Table(InsertKey(t.keys, code), t.urls[code := e])
  }

  /** `obj[code].clicks += 1` when `code` is a key; otherwise the object is unchanged. */
  function Bump(t: Table, code: string): (r: Table)
    ensures WellFormed(t) ==> WellFormed(r)
  {
    if code in t.urls then
      Table(t.keys, t.urls[code := t.urls[code].(clicks := t.urls[code].clicks + 1)])
    else t
  }

  predicate Matches(t: Table, code: string, url: string)
  {
    code in t.urls && t.urls[code].url == url
  }

  function FirstMatchFrom(t: Table, i: nat, url: string): Option<string>
    requires i <= |t.keys|
    decreases |t.keys| - i
  {
    if i == |t.keys| then None
    else if Matches(t, t.keys[i], url) then Some(t.keys[i])
    else FirstMatchFrom(t, i + 1, url)
  }

  /** The code that a scan of `Object.entries(obj)` stops at for `url`, if any. */
  function FirstMatch(t: Table, url: string): Option<string>
  {
    FirstMatchFrom(t, 0, url)
  }

  lemma {:induction false} FirstMatchFromSpec(t: Table, i: nat, url: string)
    requires i <= |t.keys|
    ensures FirstMatchFrom(t, i, url).None? <==>
      forall j :: i <= j < |t.keys| ==> !Matches(t, t.keys[j], url)
    ensures FirstMatchFrom(t, i, url).Some? ==>
      exists j :: i <= j < |t.keys| && t.keys[j] == FirstMatchFrom(t, i, url).value
        && Matches(t, t.keys[j], url)
        && forall m :: i <= m < j ==> !Matches(t, t.keys[m], url)
    decreases |t.keys| - i
  {
    if i < |t.keys| && !Matches(t, t.keys[i], url) {
      FirstMatchFromSpec(t, i + 1, url);
      var r := FirstMatchFrom(t, i + 1, url);
      if r.Some? {
        var j :| i + 1 <= j < |t.keys| && t.keys[j] == r.value
          && Matches(t, t.keys[j], url)
          && forall m :: i + 1 <= m < j ==> !Matches(t, t.keys[m], url);
        assert forall m :: i <= m < j ==> !Matches(t, t.keys[m], url);
      }
    }
  }

  /**
   * The scan finds the first code, in enumeration order, whose entry has
   * `url`; it finds nothing exactly when no entry has `url`.
   */
  lemma FirstMatchSpec(t: Table, url: string)
    requires WellFormed(t)
    ensures FirstMatch(t, url).None? <==> forall c :: c in t.urls ==> t.urls[c].url != url
    ensures FirstMatch(t, url).Some? ==>
      exists j :: 0 <= j < |t.keys| && t.keys[j] == FirstMatch(t, url).value
        && Matches(t, t.keys[j], url)
        && forall m :: 0 <= m < j ==> !Matches(t, t.keys[m], url)
  {
    FirstMatchFromSpec(t, 0, url);
    if FirstMatch(t, url).None? {
      forall c | c in t.urls ensures t.urls[c].url != url {
        var j :| 0 <= j < |t.keys| && t.keys[j] == c;
        assert !Matches(t, t.keys[j], url);
      }
    }
  }

  /** A URL carried by only one code is found under that code. */
  lemma UniqueMatchAt(t: Table, url: string, c: string)
    requires WellFormed(t)
    requires c in t.urls && t.urls[c].url == url
    requires forall d :: d in t.urls && d != c ==> t.urls[d].url != url
    ensures FirstMatch(t, url) == Some(c)
  {
    FirstMatchSpec(t, url);
  }

  /** When URLs are unique, the scan returns the one code that carries `url`. */
  lemma UniqueMatch(t: Table, url: string, c: string)
    requires WellFormed(t) && UniqueUrls(t)
    requires c in t.urls && t.urls[c].url == url
    ensures FirstMatch(t, url) == Some(c)
  {
    UniqueMatchAt(t, url, c);
  }

  /**
   * Key order is not creation order: a numeric code created after another
   * code is enumerated before it, so the scan for a URL that both carry
   * stops at the numeric one.
   */
  lemma NumericCodeFirst(e1: Entry, e2: Entry)
    requires e1.url == e2.url
    ensures Put(Put(Empty, "abcDEF", e1), "123456", e2).keys == ["123456", "abcDEF"]
    ensures FirstMatch(Put(Put(Empty, "abcDEF", e1), "123456", e2), e1.url) == Some("123456")
  {
    assert IsArrayIndex("123456") by {
      assert Value("123456") == 123456 by {
        assert "123456"[..5] == "12345";
        assert "12345"[..4] == "1234";
        assert "1234"[..3] == "123";
        assert "123"[..2] == "12";
        assert "12"[..1] == "1";
        assert "1"[..0] == "";
      }
    }
    assert !IsArrayIndex("abcDEF");
    assert "123456" !in ["abcDEF"];
    assert InsertIndex(["abcDEF"], "123456") == ["123456", "abcDEF"];
  }

  /** One member `"code": {...}` of the `urls` object in the JSON text. */
  datatype Member = Member(code: string, entry: Entry)

  /** The members `JSON.stringify` writes: one per own key, in enumeration order. */
  function Serialize(t: Table): (ms: seq<Member>)
    requires WellFormed(t)
    ensures |ms| == |t.keys|
    ensures forall m :: m in ms ==> m.code in t.urls && t.urls[m.code] == m.entry
    ensures forall i :: 0 <= i < |ms| ==> ms[i].code == t.keys[i]
  {
    seq(|t.keys|, i requires 0 <= i < |t.keys| => Member(t.keys[i], t.urls[t.keys[i]]))
  }

  /**
   * The object `JSON.parse` builds from a member list: each member is
   * assigned in text order, so a repeated code keeps its first position
   * and its last value.
   */
  function Parse(ms: seq<Member>): (t: Table)
    ensures WellFormed(t)
  {
    if |ms| == 0 then Empty
    else Put(Parse(ms[..|ms| - 1]), ms[|ms| - 1].code, ms[|ms| - 1].entry)
  }

  /** The parsed object has exactly the codes of the members. */
  lemma {:induction false} ParseCodes(ms: seq<Member>)
    ensures forall c :: c in Parse(ms).urls <==> exists i :: 0 <= i < |ms| && ms[i].code == c
  {
    if |ms| > 0 {
      var n := |ms|;
      var p := ms[..n - 1];
      ParseCodes(p);
      var u := Parse(ms).urls;
      assert u == Parse(p).urls[ms[n - 1].code := ms[n - 1].entry];
      forall c ensures c in u <==> exists i :: 0 <= i < n && ms[i].code == c {
        if c in Parse(p).urls {
          var i :| 0 <= i < |p| && p[i].code == c;
          assert ms[i].code == c;
        } else if c != ms[n - 1].code {
          forall i | 0 <= i < n ensures ms[i].code != c {
            if i < n - 1 { assert p[i] == ms[i]; }
          }
        }
      }
    }
  }

  /** Each code holds the entry of its last member. */
  lemma {:induction false} ParseLastWins(ms: seq<Member>, i: nat)
    requires i < |ms|
    requires forall j :: i < j < |ms| ==> ms[j].code != ms[i].code
    ensures ms[i].code in Parse(ms).urls && Parse(ms).urls[ms[i].code] == ms[i].entry
  {
    var n := |ms|;
    var p := ms[..n - 1];
    assert Parse(ms).urls == Parse(p).urls[ms[n - 1].code := ms[n - 1].entry];
    if i < n - 1 {
      assert p[i] == ms[i];
      forall j | i < j < |p| ensures p[j].code != p[i].code { assert p[j] == ms[j]; }
      ParseLastWins(p, i);
    }
  }

  /** The first `i` keys of `t` and their entries. */
  ghost function Prefix(t: Table, i: nat): Table
    requires WellFormed(t) && i <= |t.keys|
  {
    Table(t.keys[..i], map k | k in t.keys[..i] :: t.urls[k])
  }

  lemma OrderedPrefix(ks: seq<string>, i: nat)
    requires Ordered(ks) && i <= |ks|
    ensures Ordered(ks[..i])
  {
  }

  lemma ParseLast(ms: seq<Member>, i: nat)
    requires 0 < i <= |ms|
    ensures Parse(ms[..i]) == Put(Parse(ms[..i - 1]), ms[i - 1].code, ms[i - 1].entry)
  {
    assert ms[..i][..i - 1] == ms[..i - 1];
  }

  lemma PrefixStep(t: Table, i: nat)
    requires WellFormed(t) && 0 < i <= |t.keys|
    ensures Put(Prefix(t, i - 1), t.keys[i - 1], t.urls[t.keys[i - 1]]) == Prefix(t, i)
  {
    var k := t.keys[i - 1];
    assert t.keys[..i] == t.keys[..i - 1] + [k];
    OrderedPrefix(t.keys, i);
    InsertKeyAtEnd(t.keys[..i - 1], k);
    assert Put(Prefix(t, i - 1), k, t.urls[k]).urls == Prefix(t, i).urls;
  }

  lemma {:induction false} ParsePrefix(t: Table, i: nat)
    requires WellFormed(t) && i <= |t.keys|
    ensures Parse(Serialize(t)[..i]) == Prefix(t, i)
  {
    var s := Serialize(t);
    if i == 0 {
      assert s[..0] == [];
      assert Prefix(t, 0).urls == map[];
    } else {
      ParsePrefix(t, i - 1);
      ParseLast(s, i);
      PrefixStep(t, i);
    }
  }

  /** Writing the table as JSON and parsing it back gives the same table, key order included. */
  lemma ParseSerialize(t: Table)
    requires WellFormed(t)
    ensures Parse(Serialize(t)) == t
  {
    var s := Serialize(t);
    ParsePrefix(t, |t.keys|);
    assert s[..|s|] == s;
    assert t.keys[..|t.keys|] == t.keys;
    assert Prefix(t, |t.keys|).urls == t.urls;
  }

  /*
   * Property access on an ordinary object, as the source writes it. `obj[code]`
   * also reaches the members that every ordinary object inherits from
   * `Object.prototype`, and they are all truthy; `obj["__proto__"] = v` on an
   * object without an own `__proto__` key replaces the prototype instead of
   * adding a key (section 10.1.9 of ECMAScript 2023, OrdinarySet, with the
   * `__proto__` accessor of section 20.1.3.8.2).
   */

  /** The string-named members of `Object.prototype`. */
  const InheritedNames: set<string> := {
    "constructor", "hasOwnProperty", "isPrototypeOf", "propertyIsEnumerable",
    "toLocaleString", "toString", "valueOf", "__proto__",
    "__defineGetter__", "__defineSetter__", "__lookupGetter__", "__lookupSetter__"
  }

  const ProtoKey: string := "__proto__"

  /** What `obj[code]` evaluates to: an entry, an inherited function or object, or `undefined`. */
  datatype Property = Own(entry: Entry) | Inherited(name: string) | Undefined

  /** `obj[code]` on an ordinary object whose prototype is `Object.prototype`. */
  function PropertyAsWritten(t: Table, code: string): (p: Property)
    ensures p.Own? <==> code in t.urls
    ensures p.Undefined? <==> code !in t.urls && code !in InheritedNames
  {
    if code in t.urls then Own(t.urls[code])
    else if code in InheritedNames then Inherited(code)
    else Undefined
  }

  /** `obj[code] = e` on an ordinary object: a new `__proto__` key is not stored. */
  function PutAsWritten(t: Table, code: string, e: Entry): (r: Table)
    ensures WellFormed(t) ==> WellFormed(r)
    ensures code != ProtoKey || code in t.urls ==> r == Put(t, code, e)
    ensures code == ProtoKey && code !in t.urls ==> r == t
  {
    if code == ProtoKey && code !in t.urls then t else Put(t, code, e)
  }

  /** Away from the inherited names, reading a property is own-key lookup. */
  lemma PropertyAsWrittenAgrees(t: Table, code: string)
    requires code !in InheritedNames
    ensures PropertyAsWritten(t, code) == (if code in t.urls then Own(t.urls[code]) else Undefined)
    ensures PropertyAsWritten(t, code).Undefined? <==> Lookup(t, code).None?
  {
  }

  /**
   * A JavaScript object `Record<string, UrlEntry>` that is updated in place.
   * `Value()` is its current value.
   */
  class Record {
    var keys: seq<string>
    var urls: map<string, Entry>

    function Value(): Table
      reads this
    {
      Table(keys, urls)
    }

    ghost predicate Valid()
      reads this
    {
      WellFormed(Value())
    }

    /** `{}` */
    constructor ()
      ensures Valid() && Value() == Empty
    {
      keys := [];
      urls := map[];
    }

    /** `obj[code] = e` */
    method Assign(code: string, e: Entry)
      requires Valid()
      modifies this
      ensures Valid() && Value() == Put(old(Value()), code, e)
    {
      InsertKeyOrdered(keys, code);
      keys := InsertKey(keys, code);
      urls := urls[code := e];
    }

    /** `obj[code].clicks += 1`, which needs `obj[code]` to exist. */
    method AddClick(code: string)
      requires Valid() && code in urls
      modifies this
      ensures Valid() && Value() == Bump(old(Value()), code)
    {
      var e := urls[code];
      urls := urls[code := e.(clicks := e.clicks + 1)];
    }

    /**
     * `for (const [code, entry] of Object.entries(obj)) if (entry.url === url) return code;`
     * then `return null`.
     */
    method FindByUrl(url: string) returns (r: Option<string>)
      requires Valid()
      ensures r == FirstMatch(Value(), url)
      ensures r.Some? ==> r.value in urls && urls[r.value].url == url
      ensures r.None? <==> forall c :: c in urls ==> urls[c].url != url
    {
      FirstMatchSpec(Value(), url);
      var i := 0;
      while i < |keys|
        invariant 0 <= i <= |keys|
        invariant FirstMatchFrom(Value(), i, url) == FirstMatch(Value(), url)
      {
        var code := keys[i];
        if urls[code].url == url {
          return Some(code);
        }
        i := i + 1;
      }
      return None;
    }
  }
}
