/**
 * The file-backed short-URL store (`urlStore` of src/lib/storage.ts). Every
 * operation reads the whole table from `data/urls.json` and works on that
 * fresh object; `set`, and `incrementClicks` on a stored code, write the whole
 * table back.
 */
module Storage {
  import opened Wrappers
  import opened JsKeys
  import opened UrlTable

  /**
   * The contents of the data file: absent, text that `JSON.parse` rejects, or
   * `{"urls": {...}}` with its members in text order.
   */
  datatype DataFile = Missing | Corrupt | Json(members: seq<Member>)

  /** `readDatabase()`: a missing or unparsable file reads as `{ urls: {} }`. */
  function Load(f: DataFile): (t: Table)
    ensures WellFormed(t)
    ensures f.Missing? || f.Corrupt? ==> t == Empty
  {
    match f
    case Json(ms) => Parse(ms)
    case _ => Empty
  }

  /**
   * The file that `writeDatabase(db)` leaves behind. Reading it back gives
   * the same table, in the same key order.
   */
  function Saved(t: Table): (f: DataFile)
    requires WellFormed(t)
    ensures f.Json? && Load(f) == t
  {
    ParseSerialize(t);
    Json(Serialize(t))
  }

  class UrlStore {
    var file: DataFile

    constructor (f: DataFile)
      ensures file == f
    {
      file := f;
    }

    /** `readDatabase()`: a fresh object built member by member, as `JSON.parse` does. */
    method ReadDatabase() returns (db: Record)
      ensures fresh(db) && db.Valid()
      ensures db.Value() == Load(file)
    {
      db := new Record();
      match file {
        case Json(ms) =>
          var i := 0;
          while i < |ms|
            invariant 0 <= i <= |ms|
            invariant fresh(db) && db.Valid()
            invariant db.Value() == Parse(ms[..i])
          {
            db.Assign(ms[i].code, ms[i].entry);
            ParseLast(ms, i + 1);
            i := i + 1;
          }
          assert ms[..|ms|] == ms;
        case _ =>
      }
    }

    /** `writeDatabase(db)`: the whole file is replaced. */
    method WriteDatabase(db: Record)
      requires db.Valid()
      modifies this
      ensures file == Saved(db.Value())
    {
      file := Saved(db.Value());
    }

    /** `urlStore.set(code, data)` */
    method Set(code: string, data: Entry)
      modifies this
      ensures file == Saved(Put(Load(old(file)), code, data))
    {
      var db := ReadDatabase();
      db.Assign(code, data);
      WriteDatabase(db);
    }

    /** `urlStore.get(code)`: the stored entry, or null exactly when `code` is not stored. */
    method Get(code: string) returns (r: Option<Entry>)
      ensures r.None? <==> code !in Load(file).urls
      ensures r.Some? ==> r.value == Load(file).urls[code]
    {
      var db := ReadDatabase();
      r := if code in db.urls then Some(db.urls[code]) else None;
    }

    /** `urlStore.findByUrl(url)`: the first code, in key order, whose entry has `url`. */
    method FindByUrl(url: string) returns (r: Option<string>)
      ensures r == FirstMatch(Load(file), url)
      ensures r.Some? ==> r.value in Load(file).urls && Load(file).urls[r.value].url == url
      ensures r.None? <==> forall c :: c in Load(file).urls ==> Load(file).urls[c].url != url
    {
      var db := ReadDatabase();
      r := db.FindByUrl(url);
    }

    /** `urlStore.incrementClicks(code)`: no write at all when `code` is not stored. */
    method IncrementClicks(code: string)
      modifies this
      ensures code in Load(old(file)).urls ==> file == Saved(Bump(Load(old(file)), code))
      ensures code !in Load(old(file)).urls ==> file == old(file)
    {
      var db := ReadDatabase();
      if code in db.urls {
        db.AddClick(code);
        WriteDatabase(db);
      }
    }
  }

  /** After `set(code, data)`, `get(code)` returns `data`. */
  lemma SetThenGet(f: DataFile, code: string, data: Entry)
    ensures Lookup(Load(Saved(Put(Load(f), code, data))), code) == Some(data)
  {
  }

  /** `set(code, data)` leaves every other code's entry as it was, and the key order is JavaScript's. */
  lemma SetLeavesOthers(f: DataFile, code: string, data: Entry, other: string)
    requires other != code
    ensures Lookup(Load(Saved(Put(Load(f), code, data))), other) == Lookup(Load(f), other)
    ensures Load(Saved(Put(Load(f), code, data))).keys == InsertKey(Load(f).keys, code)
  {
  }

  /**
   * `incrementClicks(code)` on a stored code raises its clicks by exactly one,
   * keeps its url and createdAt, and leaves every other entry and the key order alone.
   */
  lemma IncrementThenGet(f: DataFile, code: string)
    requires code in Load(f).urls
    ensures var e := Load(f).urls[code];
      Lookup(Load(Saved(Bump(Load(f), code))), code) == Some(Entry(e.url, e.createdAt, e.clicks + 1))
    ensures forall other :: other != code ==>
      Lookup(Load(Saved(Bump(Load(f), code))), other) == Lookup(Load(f), other)
    ensures Load(Saved(Bump(Load(f), code))).keys == Load(f).keys
  {
    var t := Load(f);
    var b := Bump(t, code);
    assert Load(Saved(b)) == b;
    forall other | other != code
      ensures Lookup(b, other) == Lookup(t, other)
    {
    }
  }

  /** With a code stored by `set`, `findByUrl` of its URL finds a code whose entry has that URL. */
  lemma SetThenFind(f: DataFile, code: string, data: Entry)
    ensures FirstMatch(Load(Saved(Put(Load(f), code, data))), data.url).Some?
  {
    var t := Put(Load(f), code, data);
    assert code in t.urls && t.urls[code].url == data.url;
    FirstMatchSpec(t, data.url);
    assert FirstMatch(t, data.url).Some?;
  }

  // The source as written: `db.urls[code]` on an ordinary object.

  /** `get(code)` as written: `db.urls[code] || null`. */
  function GetAsWritten(f: DataFile, code: string): (p: Property)
    ensures p.Own? <==> code in Load(f).urls
    ensures p.Own? ==> p.entry == Load(f).urls[code]
    ensures p.Undefined? <==> code !in Load(f).urls && code !in InheritedNames
  {
    PropertyAsWritten(Load(f), code)
  }

  /** `set(code, data)` as written. */
  function SetAsWritten(f: DataFile, code: string, data: Entry): (r: DataFile)
    ensures code != ProtoKey || code in Load(f).urls ==> r == Saved(Put(Load(f), code, data))
    ensures code == ProtoKey && code !in Load(f).urls ==> r.Json? && Load(r) == Load(f)
  {
    Saved(PutAsWritten(Load(f), code, data))
  }

  /** `incrementClicks(code)` as written: an inherited member passes the `if` and the file is rewritten. */
  function IncrementClicksAsWritten(f: DataFile, code: string): (r: DataFile)
    ensures code in Load(f).urls ==> r == Saved(Bump(Load(f), code))
    ensures code !in Load(f).urls && code !in InheritedNames ==> r == f
    ensures code !in Load(f).urls && code in InheritedNames ==> r.Json? && Load(r) == Load(f)
  {
    match PropertyAsWritten(Load(f), code)
    case Own(_) => Saved(Bump(Load(f), code))
    case Inherited(_) => Saved(Load(f))
    case Undefined => f
  }

  /** As written, `get` of an inherited name that is not a stored code is not null. */
  lemma GetAsWrittenSeesInherited(f: DataFile, name: string)
    requires name in InheritedNames && name !in Load(f).urls
    ensures GetAsWritten(f, name) == Inherited(name)
    ensures Lookup(Load(f), name) == None
  {
  }

  /** As written, `set("__proto__", data)` followed by `get("__proto__")` does not give `data`. */
  lemma SetAsWrittenDropsProto(f: DataFile, data: Entry)
    requires ProtoKey !in Load(f).urls
    ensures GetAsWritten(SetAsWritten(f, ProtoKey, data), ProtoKey) == Inherited(ProtoKey)
    ensures Lookup(Load(Saved(Put(Load(f), ProtoKey, data))), ProtoKey) == Some(data)
  {
    SetThenGet(f, ProtoKey, data);
  }

  /** As written, `incrementClicks("valueOf")` with no data file creates one. */
  lemma IncrementAsWrittenWrites()
    ensures IncrementClicksAsWritten(Missing, "valueOf") == Json([])
    ensures "valueOf" !in Load(Missing).urls
  {
    assert Serialize(Empty) == [];
  }
}
