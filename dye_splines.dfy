/**
 * The spline database of the dye reference spectra (carbspec/dye/splines.py,
 * and its duplicate carbspec/splines.py): a JSON object mapping each dye to
 * its forms ('acid', 'base') and each form to a stored [knots, coefficients,
 * degree] triple; resolving a dye to its two splines, saving a fitted
 * spline, and listing what is available.
 */
module Splines {
  import opened Wrappers
  import opened Numerics

  /** A Python dict with string keys: the keys in insertion order and the mapping itself. */
  datatype Dict<V> = Dict(keys: seq<string>, entries: map<string, V>)
  {
    /** Keys are distinct and are exactly the mapped keys. */
    predicate Valid()
    {
      (forall i, j :: 0 <= i < j < |keys| ==> keys[i] != keys[j])
      && (forall k :: k in entries ==> k in keys)
      && KeysMapped()
    }

    /** Every listed key has an entry: what iterating over d.items() relies on. */
    predicate KeysMapped()
    {
      forall i :: 0 <= i < |keys| ==> keys[i] in entries
    }

    /** d[k] = v: an existing key keeps its place, a new key goes last. */
    function Put(k: string, v: V): (r: Dict<V>)
      ensures Valid() ==> r.Valid()
      ensures r.keys == if k in entries then keys else keys + [k]
      ensures k in r.entries && r.entries[k] == v
      ensures forall k' :: k' != k ==> (k' in r.entries <==> k' in entries)
      ensures forall k' :: k' != k && k' in entries ==> r.entries[k'] == entries[k']
    {
      if k in entries then Dict(keys, entries[k := v]) else Dict(keys + [k], entries[k := v])
    }
  }

  /** A second d[k] = v replaces the first. */
  lemma PutTwice<V>(d: Dict<V>, k: string, v1: V, v2: V)
    ensures d.Put(k, v1).Put(k, v2) == d.Put(k, v2)
  {
    assert d.Put(k, v1).Put(k, v2).entries == d.entries[k := v2];
  }

  function EmptyDict<V>(): (r: Dict<V>)
    ensures r.Valid() && r.keys == [] && r.entries == map[]
  {
    Dict([], map[])
  }

  /** The JSON values a stored spline is made of, before and after np.asanyarray. */
  datatype Value = List(xs: seq<real>) | Int(n: int) | Array(xs: seq<real>) | ScalarArray(n: int)

  /** The (t, c, k) triple of a fitted UnivariateSpline (its _eval_args). */
  datatype Tck = Tck(knots: seq<real>, coefficients: seq<real>, degree: int)

  /** [list(tck[0]), list(tck[1]), tck[2]], the entry save_spline stores. */
  function Stored(tck: Tck): seq<Value>
  {
    [List(tck.knots), List(tck.coefficients), Int(tck.degree)]
  }

  /** dye -> form -> stored entry */
  type Database = Dict<Dict<seq<Value>>>

  ghost predicate ValidDatabase(db: Database)
  {
    db.Valid() && forall d :: d in db.entries ==> db.entries[d].Valid()
  }

  /** splns[dye][form], if present. */
  function Lookup(db: Database, dye: string, form: string): (r: Option<seq<Value>>)
    ensures r.Some? <==> dye in db.entries && form in db.entries[dye].entries
  {
    if dye in db.entries && form in db.entries[dye].entries then Some(db.entries[dye].entries[form]) else None
  }

  // ---------------------------------------------------------------------------
  // tck_2_array, load_splines, spline_handler
  // ---------------------------------------------------------------------------

  /** np.asanyarray: a list becomes an array, a number a 0-d array, an array stays. */
  function AsArray(v: Value): (r: Value)
    ensures r.Array? || r.ScalarArray?
    ensures v.List? ==> r == Array(v.xs)
    ensures v.Int? ==> r == ScalarArray(v.n)
    ensures v.Array? || v.ScalarArray? ==> r == v
  {
    match v
    case List(xs) => Array(xs)
    case Int(n) => ScalarArray(n)
    case _ => v
  }

  /**
   * tck_2_array: every element but the last through np.asanyarray, the last
   * kept as it is; tck[-1] of an empty entry raises IndexError.
   */
  function TckToArray(tck: seq<Value>): (r: Result<seq<Value>>)
    ensures r.Ok? <==> |tck| > 0
    ensures r.Err? ==> r.error == IndexError
    ensures r.Ok? ==> |r.value| == |tck| && r.value[|tck| - 1] == tck[|tck| - 1]
    ensures r.Ok? ==> forall i :: 0 <= i < |tck| - 1 ==> r.value[i] == AsArray(tck[i])
  {
    if |tck| == 0 then Err(IndexError)
    else Ok(seq(|tck| - 1, i requires 0 <= i < |tck| - 1 => AsArray(tck[i])) + [tck[|tck| - 1]])
  }

  /** What a stored spline comes back as: knots and coefficients as arrays, the degree as stored. */
  lemma TckToArrayOfStored(tck: Tck)
    ensures TckToArray(Stored(tck)) == Ok([Array(tck.knots), Array(tck.coefficients), Int(tck.degree)])
  {
    var r := TckToArray(Stored(tck)).value;
    assert r == [Array(tck.knots), Array(tck.coefficients), Int(tck.degree)];
  }

  /** The spline file as load_spline_tcks finds it. */
  datatype FileContent = Missing | Undecodable | Json(db: Database)

  /** Every stored entry of a dye can be passed to tck_2_array. */
  predicate Loadable(group: Dict<seq<Value>>)
  {
    forall f :: f in group.entries ==> |group.entries[f]| > 0
  }

  /**
   * load_splines(dye, file): the file must exist and parse, the dye must be
   * listed (KeyError otherwise); each form's entry is turned into a spline by
   * fromTck, standing for UnivariateSpline._from_tck.
   */
  function LoadSplines(content: FileContent, dye: string, fromTck: seq<Value> -> Spline): (r: Result<map<string, Spline>>)
    ensures content == Missing ==> r == Err(FileNotFoundError)
    ensures content == Undecodable ==> r == Err(JSONDecodeError)
    ensures content.Json? && dye !in content.db.entries ==> r == Err(KeyError(dye))
    ensures r.Ok? <==> content.Json? && dye in content.db.entries && Loadable(content.db.entries[dye])
    ensures r.Ok? ==>
              var group := content.db.entries[dye];
              r.value.Keys == group.entries.Keys &&
              forall f :: f in group.entries ==> r.value[f] == fromTck(TckToArray(group.entries[f]).value)
  {
    match content
    case Missing => Err(FileNotFoundError)
    case Undecodable => Err(JSONDecodeError)
    case Json(db) =>
      if dye !in db.entries then Err(KeyError(dye))
      else
        var group := db.entries[dye];
        if !Loadable(group) then Err(IndexError)
        else Ok(map f | f in group.entries :: fromTck(TckToArray(group.entries[f]).value))
  }

  /** spline_handler's argument: a dye name to look up, or a dict of splines. */
  datatype DyeArg = DyeName(name: string) | DyeSplines(splines: map<string, Spline>)

  /** (dye['acid'], dye['base']), after resolving a name through load_splines. */
  function SplineHandler(dye: DyeArg, content: FileContent, fromTck: seq<Value> -> Spline): (r: Result<(Spline, Spline)>)
    ensures dye.DyeSplines? ==>
              (r.Ok? <==> "acid" in dye.splines && "base" in dye.splines)
    ensures dye.DyeSplines? && r.Ok? ==> r.value == (dye.splines["acid"], dye.splines["base"])
    ensures dye.DyeSplines? && "acid" !in dye.splines ==> r == Err(KeyError("acid"))
    ensures dye.DyeSplines? && "acid" in dye.splines && "base" !in dye.splines ==> r == Err(KeyError("base"))
    ensures dye.DyeName? && LoadSplines(content, dye.name, fromTck).Err? ==>
              r == Err(LoadSplines(content, dye.name, fromTck).error)
    ensures dye.DyeName? && LoadSplines(content, dye.name, fromTck).Ok? ==>
              var m := LoadSplines(content, dye.name, fromTck).value;
              && (r.Ok? <==> "acid" in m && "base" in m)
              && (r.Ok? ==> r.value == (m["acid"], m["base"]))
              && ("acid" !in m ==> r == Err(KeyError("acid")))
              && ("acid" in m && "base" !in m ==> r == Err(KeyError("base")))
  {
    var splines :- match dye
      case DyeName(name) => LoadSplines(content, name, fromTck)
      case DyeSplines(m) => Ok(m);
    if "acid" !in splines then Err(KeyError("acid"))
    else if "base" !in splines then Err(KeyError("base"))
    else Ok((splines["acid"], splines["base"]))
  }

  // ---------------------------------------------------------------------------
  // save_spline
  // ---------------------------------------------------------------------------

  /** The database after splns[dye][form] = [knots, coefficients, degree], with an empty group made for a new dye. */
  function WithSpline(db: Database, dye: string, form: string, tck: Tck): Database
  {
    var group := if dye in db.entries then db.entries[dye] else EmptyDict();
    db.Put(dye, group.Put(form, Stored(tck)))
  }

  /** The new entry is stored, and every other (dye, form) entry reads as before. */
  lemma WithSplineUpdatesOneEntry(db: Database, dye: string, form: string, tck: Tck)
    ensures Lookup(WithSpline(db, dye, form, tck), dye, form) == Some(Stored(tck))
    ensures forall d, f :: (d, f) != (dye, form) ==>
              Lookup(WithSpline(db, dye, form, tck), d, f) == Lookup(db, d, f)
  {
    var r := WithSpline(db, dye, form, tck);
    forall d, f | (d, f) != (dye, form)
      ensures Lookup(r, d, f) == Lookup(db, d, f)
    {
      if d == dye && dye !in db.entries {
        assert f !in r.entries[dye].entries;
      }
    }
  }

  /** A dye not yet present is appended to the dyes with the single new form. */
  lemma WithSplineNewDye(db: Database, dye: string, form: string, tck: Tck)
    requires dye !in db.entries
    ensures WithSpline(db, dye, form, tck).keys == db.keys + [dye]
    ensures WithSpline(db, dye, form, tck).entries[dye].keys == [form]
  {
  }

  lemma WithSplineValid(db: Database, dye: string, form: string, tck: Tck)
    requires ValidDatabase(db)
    ensures ValidDatabase(WithSpline(db, dye, form, tck))
  {
    var group: Dict<seq<Value>> := if dye in db.entries then db.entries[dye] else EmptyDict();
    assert group.Valid();
  }

  /** The in-memory splns dict save_spline builds and updates. */
  class SplineTable {
    var splns: Database

    constructor (start: Database)
      ensures splns == start
    {
      splns := start;
    }

    /**
     * Lines 69-75 of save_spline: add an empty group for a new dye, refuse
     * to replace an existing form unless overwrite is set, then store the entry.
     */
    method Add(dye: string, form: string, tck: Tck, overwrite: bool) returns (r: Result<()>)
      modifies this
      ensures Lookup(old(splns), dye, form).Some? && !overwrite ==>
                r == Err(ValueError(AlreadySaved(form, dye))) && splns == old(splns)
      ensures !(Lookup(old(splns), dye, form).Some? && !overwrite) ==>
                r == Ok(()) && splns == WithSpline(old(splns), dye, form, tck)
    {
      if dye !in splns.entries {
        PutTwice(splns, dye, EmptyDict(), EmptyDict<seq<Value>>().Put(form, Stored(tck)));
        splns := splns.Put(dye, EmptyDict());
      }
      if form in splns.entries[dye].entries && !overwrite {
        return Err(ValueError(AlreadySaved(form, dye)));
      }
      splns := splns.Put(dye, splns.entries[dye].Put(form, Stored(tck)));
      return Ok(());
    }
  }

  function AlreadySaved(form: string, dye: string): string
  {
    "The " + form + " form of " + dye + " is already in the spline database. Either change the dye name, or set overwrite=True."
  }

  /** The file save_spline writes to, as its decoded content. */
  class JsonFile {
    var content: FileContent

    constructor (content: FileContent)
      ensures this.content == content
    {
      this.content := content;
    }
  }

  /**
   * The database save_spline starts from: the file's content when appending,
   * an empty one when the file does not decode or append is False. A missing
   * file is not caught.
   */
  function StartDatabase(content: FileContent, append: bool): (r: Result<Database>)
    ensures !append ==> r == Ok(EmptyDict())
    ensures append && content == Undecodable ==> r == Ok(EmptyDict())
    ensures append && content.Json? ==> r == Ok(content.db)
    ensures r.Err? <==> append && content == Missing
  {
    if !append then Ok(EmptyDict())
    else match content
      case Missing => Err(FileNotFoundError)
      case Undecodable => Ok(EmptyDict())
      case Json(db) => Ok(db)
  }

  /**
   * save_spline(spln, dye, form, file, append, overwrite): the updated
   * database is written back to the file; when the form is already saved and
   * overwrite is False, ValueError is raised and the file is left as it was.
   */
  method SaveSpline(file: JsonFile, tck: Tck, dye: string, form: string, append: bool, overwrite: bool)
    returns (r: Result<()>)
    modifies file
    ensures StartDatabase(old(file.content), append).Err? ==> r == Err(FileNotFoundError)
    ensures r.Ok? <==>
              StartDatabase(old(file.content), append).Ok? &&
              !(Lookup(StartDatabase(old(file.content), append).value, dye, form).Some? && !overwrite)
    ensures StartDatabase(old(file.content), append).Ok? &&
            Lookup(StartDatabase(old(file.content), append).value, dye, form).Some? && !overwrite ==>
              r == Err(ValueError(AlreadySaved(form, dye)))
    ensures r.Err? ==> unchanged(file)
    ensures r.Ok? ==> file.content == Json(WithSpline(StartDatabase(old(file.content), append).value, dye, form, tck))
  {
    var start := StartDatabase(file.content, append);
    if start.Err? {
      return Err(start.error);
    }
    var table := new SplineTable(start.value);
    var added := table.Add(dye, form, tck, overwrite);
    if added.Err? {
      return Err(added.error);
    }
    file.content := Json(table.splns);
    return Ok(());
  }

  /** After a successful save, loading the dye back gives the saved form the spline built from the stored arrays. */
  lemma SavedSplineLoads(db: Database, dye: string, form: string, tck: Tck, fromTck: seq<Value> -> Spline)
    requires forall d :: d in db.entries ==> Loadable(db.entries[d])
    ensures LoadSplines(Json(WithSpline(db, dye, form, tck)), dye, fromTck).Ok?
    ensures LoadSplines(Json(WithSpline(db, dye, form, tck)), dye, fromTck).value[form] ==
            fromTck([Array(tck.knots), Array(tck.coefficients), Int(tck.degree)])
  {
    var r := WithSpline(db, dye, form, tck);
    assert Loadable(r.entries[dye]);
    TckToArrayOfStored(tck);
  }

  // ---------------------------------------------------------------------------
  // list_available
  // ---------------------------------------------------------------------------

  const Title: string := "Available Splines:"
  const Rule: string := "------------------"

  function FormLines(forms: seq<string>): (r: seq<string>)
    ensures |r| == |forms| && forall i :: 0 <= i < |forms| ==> r[i] == "  - " + forms[i]
  {
    seq(|forms|, i requires 0 <= i < |forms| => "  - " + forms[i])
  }

  /** The lines of one dye: 'dye:' and then one '  - form' per form, in their order. */
  function DyeBlock(db: Database, dye: string): (r: seq<string>)
    requires dye in db.entries
    ensures |r| == 1 + |db.entries[dye].keys|
    ensures r[0] == dye + ":"
    ensures forall j :: 0 <= j < |db.entries[dye].keys| ==> r[1 + j] == "  - " + db.entries[dye].keys[j]
  {
    [dye + ":"] + FormLines(db.entries[dye].keys)
  }

  /** The blocks of the given dyes, in order. */
  function DyeLines(db: Database, dyes: seq<string>): seq<string>
    requires forall i :: 0 <= i < |dyes| ==> dyes[i] in db.entries
  {
    if dyes == [] then []
    else
      var last := |dyes| - 1;
      DyeLines(db, dyes[..last]) + DyeBlock(db, dyes[last])
  }

  /** The lines list_available prints, one per list element. */
  function Listing(db: Database): seq<string>
    requires db.KeysMapped()
  {
    [Title, Rule] + DyeLines(db, db.keys) + [Rule]
  }

  /** list_available: the header, the nested loop over dyes and their forms, the closing rule. */
  method ListAvailable(db: Database) returns (out: seq<string>)
    requires db.KeysMapped()
    ensures out == Listing(db)
  {
    out := [Title, Rule];
    var i := 0;
    while i < |db.keys|
      invariant 0 <= i <= |db.keys|
      invariant out == [Title, Rule] + DyeLines(db, db.keys[..i])
    {
      var k := db.keys[i];
      var before := DyeLines(db, db.keys[..i]);
      out := AppendDye(out, k, db.entries[k].keys);
      assert db.keys[..i + 1][..i] == db.keys[..i];
      assert DyeLines(db, db.keys[..i + 1]) == before + DyeBlock(db, k);
      AppendAssociates([Title, Rule], before, DyeBlock(db, k));
      i := i + 1;
    }
    assert db.keys[..i] == db.keys;
    out := out + [Rule];
  }

  /** One pass of the outer loop of list_available: the 'dye:' line, then the inner loop over the forms. */
  method AppendDye(prefix: seq<string>, dye: string, forms: seq<string>) returns (out: seq<string>)
    ensures out == prefix + ([dye + ":"] + FormLines(forms))
  {
    out := prefix + [dye + ":"];
    var j := 0;
    while j < |forms|
      invariant 0 <= j <= |forms|
      invariant out == prefix + [dye + ":"] + FormLines(forms[..j])
    {
      assert FormLines(forms[..j + 1]) == FormLines(forms[..j]) + ["  - " + forms[j]];
      out := out + ["  - " + forms[j]];
      j := j + 1;
    }
    assert forms[..j] == forms;
    AppendAssociates(prefix, [dye + ":"], FormLines(forms));
  }

  lemma PrefixOfAppend<T>(p: seq<T>, a: seq<T>, b: seq<T>)
    requires p <= a
    ensures p <= a + b
  {
    assert (a + b)[..|p|] == a[..|p|];
  }

  lemma AppendAssociates<T>(a: seq<T>, b: seq<T>, c: seq<T>)
    ensures a + b + c == a + (b + c)
  {
  }

  /** How many lines the dye blocks take: one per dye and one per form. */
  function BlockLength(db: Database, dyes: seq<string>): nat
    requires forall i :: 0 <= i < |dyes| ==> dyes[i] in db.entries
  {
    if dyes == [] then 0
    else
      var last := |dyes| - 1;
      BlockLength(db, dyes[..last]) + |DyeBlock(db, dyes[last])|
  }

  lemma {:induction false} DyeLinesLength(db: Database, dyes: seq<string>)
    requires forall i :: 0 <= i < |dyes| ==> dyes[i] in db.entries
    ensures |DyeLines(db, dyes)| == BlockLength(db, dyes)
  {
    if dyes != [] {
      DyeLinesLength(db, dyes[..|dyes| - 1]);
    }
  }

  /** Shorter dye lists give a prefix of the lines. */
  lemma {:induction false} DyeLinesPrefix(db: Database, dyes: seq<string>, n: nat)
    requires forall i :: 0 <= i < |dyes| ==> dyes[i] in db.entries
    requires n <= |dyes|
    ensures DyeLines(db, dyes[..n]) <= DyeLines(db, dyes)
  {
    if n < |dyes| {
      var last := |dyes| - 1;
      assert dyes[..last][..n] == dyes[..n];
      DyeLinesPrefix(db, dyes[..last], n);
      var shorter, block := DyeLines(db, dyes[..last]), DyeBlock(db, dyes[last]);
      assert DyeLines(db, dyes) == shorter + block;
      PrefixOfAppend(DyeLines(db, dyes[..n]), shorter, block);
    } else {
      assert dyes[..n] == dyes;
    }
  }

  /** Two header lines, a closing rule, and one line per dye and per form in between. */
  lemma ListingFrame(db: Database)
    requires db.KeysMapped()
    ensures |Listing(db)| == 3 + BlockLength(db, db.keys)
    ensures Listing(db)[0] == Title && Listing(db)[1] == Rule
    ensures Listing(db)[|Listing(db)| - 1] == Rule
  {
    DyeLinesLength(db, db.keys);
  }

  /** Within the dye lines, the i-th dye's block follows the blocks of the dyes before it. */
  lemma DyeLinesBlock(db: Database, dyes: seq<string>, i: nat)
    requires forall k :: 0 <= k < |dyes| ==> dyes[k] in db.entries
    requires i < |dyes|
    ensures var n := BlockLength(db, dyes[..i]);
            n + |DyeBlock(db, dyes[i])| <= |DyeLines(db, dyes)| &&
            DyeLines(db, dyes)[n..n + |DyeBlock(db, dyes[i])|] == DyeBlock(db, dyes[i])
  {
    var prefix := dyes[..i + 1];
    var before := DyeLines(db, dyes[..i]);
    var block := DyeBlock(db, dyes[i]);
    var all := DyeLines(db, dyes);
    assert prefix[..i] == dyes[..i];
    assert DyeLines(db, prefix) == before + block;
    DyeLinesPrefix(db, dyes, i + 1);
    DyeLinesLength(db, dyes[..i]);
    var n := |before|;
    assert all[..n + |block|] == before + block;
    assert all[n..n + |block|] == block;
  }

  lemma {:induction false} BlockLengthMonotone(db: Database, dyes: seq<string>, n: nat)
    requires forall i :: 0 <= i < |dyes| ==> dyes[i] in db.entries
    requires n <= |dyes|
    ensures BlockLength(db, dyes[..n]) <= BlockLength(db, dyes)
  {
    if n < |dyes| {
      var last := |dyes| - 1;
      assert dyes[..last][..n] == dyes[..n];
      BlockLengthMonotone(db, dyes[..last], n);
    } else {
      assert dyes[..n] == dyes;
    }
  }
}
