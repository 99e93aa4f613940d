/** The seeding task of src/task/updateCountryGroup.ts: the country groups of the bundled
    country list are upserted by name, then every listed country is upserted by code into the
    stored group of the same name. The bundled list is an input; generated ids are inputs. */
module CountrySeed {
  import opened Wrappers
  import opened Tables
  import opened Schema

  /** One country of the bundled list: its name and its code. */
  datatype SourceCountry = SourceCountry(countryName: string, country: string)

  /** One group of the bundled list. */
  datatype SourceGroup = SourceGroup(name: string, recommendedDiscountPercentage: real, countries: seq<SourceCountry>)

  /** Why a step fails: an insert without rows, a key that appears twice in one
      `ON CONFLICT DO UPDATE` ("cannot affect row a second time"), a unique constraint the
      result would break, or a group name without a stored group. */
  datatype SeedError = NoValues | ConflictTwice | UniqueViolation | GroupNotFound(name: string)

  /** The message of the error `updateCountries` throws for a missing group. */
  function NotFoundMessage(name: string): string {
    "Country group " + name + " not found"
  }

  function SourceName(g: SourceGroup): string { g.name }

  // ---------------------------------------------------------------------------
  // updateCountryGroup

  /** The insert values of the group upsert, each with its generated id. */
  function GroupRows(source: seq<SourceGroup>, newIds: seq<string>): (r: seq<CountryGroup>)
    requires |newIds| == |source|
    ensures |r| == |source|
    ensures forall i :: 0 <= i < |r| ==> r[i] == CountryGroup(newIds[i], source[i].name, Some(source[i].recommendedDiscountPercentage))
  {
    seq(|source|, i requires 0 <= i < |source| => CountryGroup(newIds[i], source[i].name, Some(source[i].recommendedDiscountPercentage)))
  }

  /** One row of `INSERT ... ON CONFLICT (name) DO UPDATE SET recommended_discount_percentage`:
      a stored group of that name keeps its id and takes the new percentage; otherwise the row
      is appended. */
  function UpsertGroup(gs: seq<CountryGroup>, row: CountryGroup): (r: seq<CountryGroup>)
    ensures forall x :: x in r ==>
      x in gs || (x.name == row.name && x.recommendedDiscountPercentage == row.recommendedDiscountPercentage)
    ensures forall x :: x in gs && x.name != row.name ==> x in r
    ensures exists x :: x in r && x.name == row.name && x.recommendedDiscountPercentage == row.recommendedDiscountPercentage
  {
    if gs == [] then
      assert row in [row];
      [row]
    else if gs[0].name == row.name then
      var g := gs[0].(recommendedDiscountPercentage := row.recommendedDiscountPercentage);
      assert forall x :: x in gs ==> x == gs[0] || x in gs[1..];
      [g] + gs[1..]
    else
      var rest := UpsertGroup(gs[1..], row);
      assert forall x :: x in gs ==> x == gs[0] || x in gs[1..];
      [gs[0]] + rest
  }

  /** The ids of a table with one more group in front. */
  lemma GroupIdsCons(g: CountryGroup, gs: seq<CountryGroup>)
    ensures GroupIds([g] + gs) == {g.id} + GroupIds(gs)
  {
    assert forall x :: x in [g] + gs <==> x == g || x in gs;
  }

  /** The group upsert keeps every stored id and adds at most the generated one. */
  lemma {:induction false} UpsertGroupIds(gs: seq<CountryGroup>, row: CountryGroup)
    ensures GroupIds(gs) <= GroupIds(UpsertGroup(gs, row)) <= GroupIds(gs) + {row.id}
  {
    var r := UpsertGroup(gs, row);
    if gs == [] {
      assert r == [row];
      GroupIdsCons(row, []);
    } else {
      assert gs == [gs[0]] + gs[1..];
      GroupIdsCons(gs[0], gs[1..]);
      if gs[0].name == row.name {
        GroupIdsCons(r[0], gs[1..]);
      } else {
        UpsertGroupIds(gs[1..], row);
        GroupIdsCons(gs[0], UpsertGroup(gs[1..], row));
      }
    }
  }

  /** The rows of the multi-row group upsert, in order. */
  function UpsertGroups(gs: seq<CountryGroup>, rows: seq<CountryGroup>): seq<CountryGroup>
    decreases rows
  {
    if rows == [] then gs else UpsertGroups(UpsertGroup(gs, rows[0]), rows[1..])
  }

  /** The group upsert keeps ids and names unique when the generated id is new. */
  lemma {:induction false} UpsertGroupValid(gs: seq<CountryGroup>, row: CountryGroup)
    requires GroupsValid(gs) && row.id !in GroupIds(gs)
    ensures GroupsValid(UpsertGroup(gs, row))
  {
    if gs != [] {
      UniqueTail(gs, GroupKey);
      UniqueTail(gs, GroupName);
      if gs[0].name == row.name {
        var g := gs[0].(recommendedDiscountPercentage := row.recommendedDiscountPercentage);
        UniqueCons(g, gs[1..], GroupKey);
        UniqueCons(g, gs[1..], GroupName);
      } else {
        assert GroupIds(gs[1..]) <= GroupIds(gs);
        assert gs[0].id in GroupIds(gs);
        UpsertGroupValid(gs[1..], row);
        UpsertGroupIds(gs[1..], row);
        var rest := UpsertGroup(gs[1..], row);
        forall x | x in rest ensures GroupKey(x) != GroupKey(gs[0]) && GroupName(x) != GroupName(gs[0]) {
          if x !in gs[1..] {
            assert x.id in GroupIds(rest);
            if x.id != row.id {
              var y :| y in gs[1..] && y.id == x.id;
            }
          }
        }
        UniqueCons(gs[0], rest, GroupKey);
        UniqueCons(gs[0], rest, GroupName);
      }
    }
  }

  /** Ids are new and pairwise distinct. */
  predicate FreshIds(ids: seq<string>, used: set<string>) {
    UniqueBy(ids, id => id) && forall id :: id in ids ==> id !in used
  }

  /** The whole group upsert keeps the group table consistent and every stored id. */
  lemma {:induction false} UpsertGroupsValid(gs: seq<CountryGroup>, rows: seq<CountryGroup>)
    requires GroupsValid(gs) && FreshIds(seq(|rows|, i requires 0 <= i < |rows| => rows[i].id), GroupIds(gs))
    ensures GroupsValid(UpsertGroups(gs, rows))
    ensures GroupIds(gs) <= GroupIds(UpsertGroups(gs, rows))
    decreases rows
  {
    if rows != [] {
      var ids := seq(|rows|, i requires 0 <= i < |rows| => rows[i].id);
      assert ids[0] == rows[0].id;
      UpsertGroupValid(gs, rows[0]);
      UpsertGroupIds(gs, rows[0]);
      var next := UpsertGroup(gs, rows[0]);
      var tail := rows[1..];
      var tailIds := seq(|tail|, i requires 0 <= i < |tail| => tail[i].id);
      assert tailIds == ids[1..];
      UniqueTail(ids, id => id);
      forall id | id in tailIds ensures id !in GroupIds(next) {
        assert id in ids && id != ids[0];
      }
      UpsertGroupsValid(next, tail);
    }
  }

  /** After the upsert every listed group name is stored, with its listed percentage. */
  lemma {:induction false} UpsertGroupsStoresEveryName(gs: seq<CountryGroup>, rows: seq<CountryGroup>)
    requires UniqueBy(rows, GroupName)
    ensures forall row :: row in rows ==>
      exists x :: (x in UpsertGroups(gs, rows) && x.name == row.name
                   && x.recommendedDiscountPercentage == row.recommendedDiscountPercentage)
    decreases rows
  {
    if rows != [] {
      var next := UpsertGroup(gs, rows[0]);
      UniqueTail(rows, GroupName);
      UpsertGroupsStoresEveryName(next, rows[1..]);
      var x :| x in next && x.name == rows[0].name && x.recommendedDiscountPercentage == rows[0].recommendedDiscountPercentage;
      KeptByOtherNames(next, rows[1..], x);
      assert forall row :: row in rows ==> row == rows[0] || row in rows[1..];
    }
  }

  /** A stored group whose name no later row carries survives the later rows unchanged. */
  lemma {:induction false} KeptByOtherNames(gs: seq<CountryGroup>, rows: seq<CountryGroup>, x: CountryGroup)
    requires x in gs && forall row :: row in rows ==> row.name != x.name
    ensures x in UpsertGroups(gs, rows)
    decreases rows
  {
    if rows != [] {
      assert rows[0] in rows;
      assert forall row :: row in rows[1..] ==> row in rows;
      KeptByOtherNames(UpsertGroup(gs, rows[0]), rows[1..], x);
    }
  }

  /** Upserts the listed groups by name; fails without change on an empty list or a name
      listed twice. Returns the number of rows written. */
  method UpdateCountryGroup(db: Database, source: seq<SourceGroup>, newIds: seq<string>) returns (result: Result<nat, SeedError>)
    requires db.Valid() && |newIds| == |source| && FreshIds(newIds, GroupIds(db.countryGroups))
    modifies db
    ensures db.Valid()
    ensures result.Failure? <==> |source| == 0 || !UniqueBy(source, SourceName)
    ensures result.Failure? ==> result.error == (if |source| == 0 then NoValues else ConflictTwice) && unchanged(db)
    ensures result.Success? ==>
      && result.value == |source|
      && db.countryGroups == UpsertGroups(old(db.countryGroups), GroupRows(source, newIds))
      && forall g :: g in source ==>
           exists x :: (x in db.countryGroups && x.name == g.name
                        && x.recommendedDiscountPercentage == Some(g.recommendedDiscountPercentage))
    ensures db.products == old(db.products) && db.customizations == old(db.customizations)
    ensures db.countries == old(db.countries) && db.discounts == old(db.discounts)
    ensures db.subscriptions == old(db.subscriptions) && db.views == old(db.views)
    ensures db.revalidations == old(db.revalidations)
  {
    if |source| == 0 {
      return Failure(NoValues);
    }
    if !UniqueBy(source, SourceName) {
      return Failure(ConflictTwice);
    }
    var rows := GroupRows(source, newIds);
    assert seq(|rows|, i requires 0 <= i < |rows| => rows[i].id) == newIds;
    UpsertGroupsValid(db.countryGroups, rows);
    assert UniqueBy(rows, GroupName) by {
      forall i, j | 0 <= i < j < |rows| ensures GroupName(rows[i]) != GroupName(rows[j]) {
        assert SourceName(source[i]) != SourceName(source[j]);
      }
    }
    UpsertGroupsStoresEveryName(db.countryGroups, rows);
    forall g | g in source
      ensures exists x :: (x in UpsertGroups(db.countryGroups, rows) && x.name == g.name
                           && x.recommendedDiscountPercentage == Some(g.recommendedDiscountPercentage))
    {
      var i :| 0 <= i < |source| && source[i] == g;
      assert rows[i] in rows;
    }
    db.countryGroups := UpsertGroups(db.countryGroups, rows);
    result := Success(|source|);
  }

  // ---------------------------------------------------------------------------
  // updateCountries

  /** An insert value of the country upsert, before its id is generated. */
  datatype CountryRow = CountryRow(name: string, code: string, countryGroupId: string)

  function RowCode(r: CountryRow): string { r.code }

  /** `countryGroups.find((group) => group.name === name)`. */
  function FindGroupByName(gs: seq<CountryGroup>, name: string): (r: Option<CountryGroup>)
    ensures r.Some? ==> r.value in gs && r.value.name == name
    ensures r.None? ==> forall g :: g in gs ==> g.name != name
  {
    if gs == [] then None
    else if gs[0].name == name then Some(gs[0])
    else FindGroupByName(gs[1..], name)
  }

  /** Every listed group name has a stored group. */
  predicate AllGroupsFound(gs: seq<CountryGroup>, source: seq<SourceGroup>) {
    forall g :: g in source ==> FindGroupByName(gs, g.name).Some?
  }

  /** The countries of one listed group, all pointing at `groupId`. */
  function CountryRowsOf(countries: seq<SourceCountry>, groupId: string): (r: seq<CountryRow>)
    ensures |r| == |countries|
    ensures forall i :: 0 <= i < |r| ==> r[i] == CountryRow(countries[i].countryName, countries[i].country, groupId)
  {
    seq(|countries|, i requires 0 <= i < |countries| => CountryRow(countries[i].countryName, countries[i].country, groupId))
  }

  lemma CountryRowsOfCovers(countries: seq<SourceCountry>, groupId: string)
    ensures forall c :: c in countries ==> CountryRow(c.countryName, c.country, groupId) in CountryRowsOf(countries, groupId)
  {
    forall c | c in countries ensures CountryRow(c.countryName, c.country, groupId) in CountryRowsOf(countries, groupId) {
      var i :| 0 <= i < |countries| && countries[i] == c;
      assert CountryRowsOf(countries, groupId)[i] == CountryRow(c.countryName, c.country, groupId);
    }
  }

  function CountryCount(source: seq<SourceGroup>): nat {
    if source == [] then 0 else |source[0].countries| + CountryCount(source[1..])
  }

  /** The index of the first listed group whose name has no stored group. */
  function FirstMissing(gs: seq<CountryGroup>, source: seq<SourceGroup>): (r: Option<nat>)
    ensures r.None? <==> AllGroupsFound(gs, source)
    ensures r.Some? ==>
      && r.value < |source|
      && (forall g :: g in gs ==> g.name != source[r.value].name)
      && forall j :: 0 <= j < r.value ==> FindGroupByName(gs, source[j].name).Some?
  {
    if source == [] then None
    else if FindGroupByName(gs, source[0].name).None? then
      assert source[0] in source;
      Some(0)
    else
      assert forall g :: g in source <==> g == source[0] || g in source[1..];
      match FirstMissing(gs, source[1..])
      case None => None
      case Some(k) =>
        assert forall j :: 1 <= j <= k + 1 ==> source[j] == source[1..][j - 1];
        Some(k + 1)
  }

  /** The `flatMap` over the list: each listed country becomes a row of the stored group with
      its group's name; the first group name without a stored group raises. */
  function BuildCountryRows(gs: seq<CountryGroup>, source: seq<SourceGroup>): (r: Result<seq<CountryRow>, SeedError>)
    ensures r.Success? <==> AllGroupsFound(gs, source)
    ensures r.Failure? ==>
      FirstMissing(gs, source).Some? && r.error == GroupNotFound(source[FirstMissing(gs, source).value].name)
    ensures r.Success? ==> |r.value| == CountryCount(source)
  {
    if source == [] then Success([])
    else
      match FindGroupByName(gs, source[0].name)
      case None => Failure(GroupNotFound(source[0].name))
      case Some(group) =>
        match BuildCountryRows(gs, source[1..])
        case Failure(e) => Failure(e)
        case Success(rest) =>
          assert forall g :: g in source <==> g == source[0] || g in source[1..];
          Success(CountryRowsOf(source[0].countries, group.id) + rest)
  }

  /** Every built row is a listed country placed in the stored group of its group's name. */
  lemma {:induction false} BuiltRowsComeFromSource(gs: seq<CountryGroup>, source: seq<SourceGroup>)
    requires BuildCountryRows(gs, source).Success?
    ensures forall row :: row in BuildCountryRows(gs, source).value ==>
      exists sg, c :: (sg in source && c in sg.countries
                       && row == CountryRow(c.countryName, c.country, FindGroupByName(gs, sg.name).value.id))
  {
    if source != [] {
      var group := FindGroupByName(gs, source[0].name).value;
      var own := CountryRowsOf(source[0].countries, group.id);
      assert source[0] in source;
      assert forall sg :: sg in source[1..] ==> sg in source;
      BuiltRowsComeFromSource(gs, source[1..]);
      assert BuildCountryRows(gs, source).value == own + BuildCountryRows(gs, source[1..]).value;
      forall row | row in own
        ensures exists c :: (c in source[0].countries && row == CountryRow(c.countryName, c.country, group.id))
      {
        var i :| 0 <= i < |own| && own[i] == row;
        assert source[0].countries[i] in source[0].countries;
      }
    }
  }

  /** Every listed country is built into a row of the stored group of its group's name. */
  lemma {:induction false} BuiltRowsCoverSource(gs: seq<CountryGroup>, source: seq<SourceGroup>)
    requires BuildCountryRows(gs, source).Success?
    ensures forall sg, c :: sg in source && c in sg.countries ==>
      CountryRow(c.countryName, c.country, FindGroupByName(gs, sg.name).value.id) in BuildCountryRows(gs, source).value
  {
    if source != [] {
      var group := FindGroupByName(gs, source[0].name).value;
      assert forall sg :: sg in source ==> sg == source[0] || sg in source[1..];
      BuiltRowsCoverSource(gs, source[1..]);
      CountryRowsOfCovers(source[0].countries, group.id);
      assert BuildCountryRows(gs, source).value
        == CountryRowsOf(source[0].countries, group.id) + BuildCountryRows(gs, source[1..]).value;
    }
  }

  /** The insert values with their generated ids. */
  function CountriesWithIds(rows: seq<CountryRow>, newIds: seq<string>): (r: seq<Country>)
    requires |newIds| == |rows|
    ensures |r| == |rows|
    ensures forall i :: 0 <= i < |r| ==> r[i] == Country(newIds[i], rows[i].name, rows[i].code, rows[i].countryGroupId)
  {
    seq(|rows|, i requires 0 <= i < |rows| => Country(newIds[i], rows[i].name, rows[i].code, rows[i].countryGroupId))
  }

  /** One row of `INSERT ... ON CONFLICT (code) DO UPDATE SET name, country_group_id`: a
      stored country with that code keeps its id and takes the new name and group; otherwise
      the row is appended. */
  function UpsertCountry(cs: seq<Country>, row: Country): (r: seq<Country>)
    ensures forall x :: x in r ==>
      x in cs || (x.code == row.code && x.name == row.name && x.countryGroupId == row.countryGroupId)
    ensures forall x :: x in cs && x.code != row.code ==> x in r
    ensures exists x :: x in r && x.code == row.code && x.name == row.name && x.countryGroupId == row.countryGroupId
  {
    if cs == [] then
      assert row in [row];
      [row]
    else if cs[0].code == row.code then
      var c := cs[0].(name := row.name, countryGroupId := row.countryGroupId);
      assert forall x :: x in cs ==> x == cs[0] || x in cs[1..];
      [c] + cs[1..]
    else
      var rest := UpsertCountry(cs[1..], row);
      assert forall x :: x in cs ==> x == cs[0] || x in cs[1..];
      [cs[0]] + rest
  }

  /** The ids of a table with one more row in front. */
  lemma CountryIdsCons(c: Country, cs: seq<Country>)
    ensures CountryIds([c] + cs) == {c.id} + CountryIds(cs)
  {
    assert forall x :: x in [c] + cs <==> x == c || x in cs;
  }

  /** The country upsert keeps every stored id and adds at most the generated one. */
  lemma {:induction false} UpsertCountryIds(cs: seq<Country>, row: Country)
    ensures CountryIds(cs) <= CountryIds(UpsertCountry(cs, row)) <= CountryIds(cs) + {row.id}
  {
    var r := UpsertCountry(cs, row);
    if cs == [] {
      assert r == [row];
      CountryIdsCons(row, []);
    } else {
      assert cs == [cs[0]] + cs[1..];
      CountryIdsCons(cs[0], cs[1..]);
      if cs[0].code == row.code {
        CountryIdsCons(r[0], cs[1..]);
      } else {
        UpsertCountryIds(cs[1..], row);
        CountryIdsCons(cs[0], UpsertCountry(cs[1..], row));
      }
    }
  }

  /** The rows of the multi-row country upsert, in order; every stored group reference comes
      from a stored row or from a listed one. */
  function UpsertCountries(cs: seq<Country>, rows: seq<Country>): (r: seq<Country>)
    ensures forall x :: x in r ==> x in cs || exists row :: row in rows && x.countryGroupId == row.countryGroupId
    decreases rows
  {
    if rows == [] then cs
    else
      var next := UpsertCountry(cs, rows[0]);
      var r := UpsertCountries(next, rows[1..]);
      assert forall row :: row in rows[1..] ==> row in rows;
      r
  }

  /** The country upsert keeps ids and codes unique when the generated id is new. */
  lemma {:induction false} UpsertCountryUnique(cs: seq<Country>, row: Country)
    requires UniqueBy(cs, CountryKey) && UniqueBy(cs, CountryCode) && row.id !in CountryIds(cs)
    ensures UniqueBy(UpsertCountry(cs, row), CountryKey) && UniqueBy(UpsertCountry(cs, row), CountryCode)
  {
    if cs != [] {
      UniqueTail(cs, CountryKey);
      UniqueTail(cs, CountryCode);
      if cs[0].code == row.code {
        var c := cs[0].(name := row.name, countryGroupId := row.countryGroupId);
        UniqueCons(c, cs[1..], CountryKey);
        UniqueCons(c, cs[1..], CountryCode);
      } else {
        assert CountryIds(cs[1..]) <= CountryIds(cs);
        assert cs[0].id in CountryIds(cs);
        UpsertCountryUnique(cs[1..], row);
        UpsertCountryIds(cs[1..], row);
        var rest := UpsertCountry(cs[1..], row);
        forall x | x in rest ensures CountryKey(x) != CountryKey(cs[0]) && CountryCode(x) != CountryCode(cs[0]) {
          if x !in cs[1..] {
            assert x.id in CountryIds(rest);
            if x.id != row.id {
              var y :| y in cs[1..] && y.id == x.id;
            }
          }
        }
        UniqueCons(cs[0], rest, CountryKey);
        UniqueCons(cs[0], rest, CountryCode);
      }
    }
  }

  /** The whole country upsert keeps ids and codes unique, and every stored id. */
  lemma {:induction false} UpsertCountriesUnique(cs: seq<Country>, rows: seq<Country>)
    requires UniqueBy(cs, CountryKey) && UniqueBy(cs, CountryCode)
    requires FreshIds(seq(|rows|, i requires 0 <= i < |rows| => rows[i].id), CountryIds(cs))
    ensures UniqueBy(UpsertCountries(cs, rows), CountryKey) && UniqueBy(UpsertCountries(cs, rows), CountryCode)
    ensures CountryIds(cs) <= CountryIds(UpsertCountries(cs, rows))
    decreases rows
  {
    if rows != [] {
      var ids := seq(|rows|, i requires 0 <= i < |rows| => rows[i].id);
      assert ids[0] == rows[0].id;
      UpsertCountryUnique(cs, rows[0]);
      UpsertCountryIds(cs, rows[0]);
      var next := UpsertCountry(cs, rows[0]);
      var tail := rows[1..];
      var tailIds := seq(|tail|, i requires 0 <= i < |tail| => tail[i].id);
      assert tailIds == ids[1..];
      UniqueTail(ids, id => id);
      forall id | id in tailIds ensures id !in CountryIds(next) {
        assert id in ids && id != ids[0];
      }
      UpsertCountriesUnique(next, tail);
    }
  }

  /** With codes listed once, every listed country ends up stored under its code with its
      listed name and group. */
  lemma {:induction false} UpsertCountriesStoresEveryCode(cs: seq<Country>, rows: seq<Country>)
    requires UniqueBy(rows, CountryCode)
    ensures forall row :: row in rows ==>
      exists x :: (x in UpsertCountries(cs, rows)
                   && x.code == row.code && x.name == row.name && x.countryGroupId == row.countryGroupId)
    decreases rows
  {
    if rows != [] {
      var next := UpsertCountry(cs, rows[0]);
      UniqueTail(rows, CountryCode);
      UpsertCountriesStoresEveryCode(next, rows[1..]);
      var x :| x in next && x.code == rows[0].code && x.name == rows[0].name && x.countryGroupId == rows[0].countryGroupId;
      KeptByOtherCodes(next, rows[1..], x);
      assert forall row :: row in rows ==> row == rows[0] || row in rows[1..];
    }
  }

  lemma {:induction false} KeptByOtherCodes(cs: seq<Country>, rows: seq<Country>, x: Country)
    requires x in cs && forall row :: row in rows ==> row.code != x.code
    ensures x in UpsertCountries(cs, rows)
    decreases rows
  {
    if rows != [] {
      assert rows[0] in rows;
      assert forall row :: row in rows[1..] ==> row in rows;
      KeptByOtherCodes(UpsertCountry(cs, rows[0]), rows[1..], x);
    }
  }

  /** Every row is stored under its code with its name and group. */
  predicate StoresEveryRow(cs: seq<Country>, rows: seq<CountryRow>) {
    forall row :: row in rows ==>
      exists c :: (c in cs && c.code == row.code && c.name == row.name && c.countryGroupId == row.countryGroupId)
  }

  /** Every listed country is stored under its code, with its name, in the stored group of
      the name it is listed under. */
  predicate PlacesEveryCountry(cs: seq<Country>, gs: seq<CountryGroup>, source: seq<SourceGroup>) {
    forall g, c :: g in source && c in g.countries ==>
      exists x, y :: (x in cs && y in gs && x.code == c.country && x.name == c.countryName
                      && x.countryGroupId == y.id && y.name == g.name)
  }

  /** Every built row points at a stored group. */
  lemma BuiltRowsReferToStoredGroups(gs: seq<CountryGroup>, source: seq<SourceGroup>)
    requires BuildCountryRows(gs, source).Success?
    ensures forall row :: row in BuildCountryRows(gs, source).value ==> row.countryGroupId in GroupIds(gs)
  {
    BuiltRowsComeFromSource(gs, source);
    forall row | row in BuildCountryRows(gs, source).value ensures row.countryGroupId in GroupIds(gs) {
      var sg, c :| sg in source && c in sg.countries
        && row == CountryRow(c.countryName, c.country, FindGroupByName(gs, sg.name).value.id);
    }
  }

  /** Rows with codes listed once, given fresh ids, are valid input to the upsert. */
  lemma RowsWithIdsUnique(cs: seq<Country>, rows: seq<CountryRow>, newIds: seq<string>)
    requires |newIds| == |rows| && FreshIds(newIds, CountryIds(cs)) && UniqueBy(rows, RowCode)
    ensures UniqueBy(CountriesWithIds(rows, newIds), CountryCode)
    ensures FreshIds(seq(|rows|, i requires 0 <= i < |rows| => CountriesWithIds(rows, newIds)[i].id), CountryIds(cs))
  {
    var values := CountriesWithIds(rows, newIds);
    assert seq(|values|, i requires 0 <= i < |values| => values[i].id) == newIds;
    forall i, j | 0 <= i < j < |values| ensures CountryCode(values[i]) != CountryCode(values[j]) {
      assert RowCode(rows[i]) != RowCode(rows[j]);
    }
  }

  /** Once the rows with ids are stored by code, every row is stored. */
  lemma UpsertedStoresEveryRow(cs: seq<Country>, rows: seq<CountryRow>, newIds: seq<string>)
    requires |newIds| == |rows| && UniqueBy(CountriesWithIds(rows, newIds), CountryCode)
    ensures StoresEveryRow(UpsertCountries(cs, CountriesWithIds(rows, newIds)), rows)
  {
    var values := CountriesWithIds(rows, newIds);
    var upserted := UpsertCountries(cs, values);
    UpsertCountriesStoresEveryCode(cs, values);
    forall row | row in rows
      ensures exists c :: (c in upserted
                           && c.code == row.code && c.name == row.name && c.countryGroupId == row.countryGroupId)
    {
      var i :| 0 <= i < |rows| && rows[i] == row;
      assert values[i] in values;
    }
  }

  /** Stored countries and rows that point at stored groups give an upserted table that
      does too. */
  lemma UpsertedRefersToStoredGroups(cs: seq<Country>, gs: seq<CountryGroup>, rows: seq<CountryRow>, newIds: seq<string>)
    requires |newIds| == |rows|
    requires forall c :: c in cs ==> c.countryGroupId in GroupIds(gs)
    requires forall row :: row in rows ==> row.countryGroupId in GroupIds(gs)
    ensures forall c :: c in UpsertCountries(cs, CountriesWithIds(rows, newIds)) ==> c.countryGroupId in GroupIds(gs)
  {
    var values := CountriesWithIds(rows, newIds);
    forall c | c in UpsertCountries(cs, values) ensures c.countryGroupId in GroupIds(gs) {
      if c !in cs {
        var v :| v in values && c.countryGroupId == v.countryGroupId;
        var i :| 0 <= i < |values| && values[i] == v;
        assert rows[i] in rows;
      }
    }
  }

  /** What the country upsert does to a consistent table when codes are listed once, ids are
      fresh and every row points at a stored group. */
  lemma UpsertCountriesFacts(cs: seq<Country>, gs: seq<CountryGroup>, rows: seq<CountryRow>, newIds: seq<string>)
    requires UniqueBy(cs, CountryKey) && UniqueBy(cs, CountryCode) && forall c :: c in cs ==> c.countryGroupId in GroupIds(gs)
    requires |newIds| == |rows| && FreshIds(newIds, CountryIds(cs)) && UniqueBy(rows, RowCode)
    requires forall row :: row in rows ==> row.countryGroupId in GroupIds(gs)
    ensures UniqueBy(UpsertCountries(cs, CountriesWithIds(rows, newIds)), CountryKey)
    ensures UniqueBy(UpsertCountries(cs, CountriesWithIds(rows, newIds)), CountryCode)
    ensures CountryIds(cs) <= CountryIds(UpsertCountries(cs, CountriesWithIds(rows, newIds)))
    ensures forall c :: c in UpsertCountries(cs, CountriesWithIds(rows, newIds)) ==> c.countryGroupId in GroupIds(gs)
    ensures StoresEveryRow(UpsertCountries(cs, CountriesWithIds(rows, newIds)), rows)
  {
    RowsWithIdsUnique(cs, rows, newIds);
    UpsertCountriesUnique(cs, CountriesWithIds(rows, newIds));
    UpsertedStoresEveryRow(cs, rows, newIds);
    UpsertedRefersToStoredGroups(cs, gs, rows, newIds);
  }

  /** PostgreSQL checks the non-deferrable unique name of `countries` as each row of the
      upsert is written, not once at the end: the statement fails as soon as one step leaves
      two countries with the same name. */
  predicate NamesUniqueAtEachStep(cs: seq<Country>, rows: seq<Country>)
    decreases rows
  {
    rows == [] ||
      var next := UpsertCountry(cs, rows[0]);
      UniqueBy(next, CountryName) && NamesUniqueAtEachStep(next, rows[1..])
  }

  /** A statement that passes the check at every step ends with unique names. */
  lemma {:induction false} NamesUniqueAtEachStepEnd(cs: seq<Country>, rows: seq<Country>)
    requires UniqueBy(cs, CountryName) && NamesUniqueAtEachStep(cs, rows)
    ensures UniqueBy(UpsertCountries(cs, rows), CountryName)
    decreases rows
  {
    if rows != [] {
      NamesUniqueAtEachStepEnd(UpsertCountry(cs, rows[0]), rows[1..]);
    }
  }

  /** The first row of the swap takes code AA's row to the name "Beta". */
  lemma SwapFirstStep()
    ensures UpsertCountry([Country("1", "Alpha", "AA", "g"), Country("2", "Beta", "BB", "g")], Country("3", "Beta", "AA", "g"))
      == [Country("1", "Beta", "AA", "g"), Country("2", "Beta", "BB", "g")]
  {
  }

  /** The second row of the swap takes code BB's row to the name "Alpha". */
  lemma SwapSecondStep()
    ensures UpsertCountry([Country("1", "Beta", "AA", "g"), Country("2", "Beta", "BB", "g")], Country("4", "Alpha", "BB", "g"))
      == [Country("1", "Beta", "AA", "g"), Country("2", "Alpha", "BB", "g")]
  {
    var c := Country("1", "Beta", "AA", "g");
    assert "AA" != "BB" by {
      assert "AA"[0] != "BB"[0];
    }
    assert [c, Country("2", "Beta", "BB", "g")][1..] == [Country("2", "Beta", "BB", "g")];
  }

  /** Two countries have unique names exactly when their names differ. */
  lemma PairNamesUnique(a: Country, b: Country)
    ensures UniqueBy([a, b], CountryName) <==> a.name != b.name
  {
    var s := [a, b];
    if a.name == b.name {
      assert CountryName(s[0]) == CountryName(s[1]);
    }
  }

  /** A two-row statement: two upsert steps, with the name check after each. */
  lemma TwoRowUpsert(cs: seq<Country>, a: Country, b: Country)
    ensures UpsertCountries(cs, [a, b]) == UpsertCountry(UpsertCountry(cs, a), b)
    ensures NamesUniqueAtEachStep(cs, [a, b]) <==>
      UniqueBy(UpsertCountry(cs, a), CountryName) && UniqueBy(UpsertCountry(UpsertCountry(cs, a), b), CountryName)
  {
    var s1 := UpsertCountry(cs, a);
    var s2 := UpsertCountry(s1, b);
    assert [a, b][0] == a && [a, b][1..] == [b];
    assert [b][0] == b && [b][1..] == [];
    assert UpsertCountries(s1, [b]) == UpsertCountries(s2, []);
    assert NamesUniqueAtEachStep(s1, [b]) == (UniqueBy(s2, CountryName) && NamesUniqueAtEachStep(s2, []));
  }

  /** The converse fails: swapping the names of two stored countries leaves unique names at
      the end, but after the first row two countries are named "Beta". */
  lemma SwappedNamesFailPartway()
    ensures var cs := [Country("1", "Alpha", "AA", "g"), Country("2", "Beta", "BB", "g")];
      var rows := [Country("3", "Beta", "AA", "g"), Country("4", "Alpha", "BB", "g")];
      && UniqueBy(cs, CountryName)
      && UniqueBy(UpsertCountries(cs, rows), CountryName)
      && !NamesUniqueAtEachStep(cs, rows)
  {
    var cs := [Country("1", "Alpha", "AA", "g"), Country("2", "Beta", "BB", "g")];
    var mid := [Country("1", "Beta", "AA", "g"), Country("2", "Beta", "BB", "g")];
    var end := [Country("1", "Beta", "AA", "g"), Country("2", "Alpha", "BB", "g")];
    assert "Alpha" != "Beta" by {
      assert "Alpha"[0] != "Beta"[0];
    }
    PairNamesUnique(cs[0], cs[1]);
    PairNamesUnique(mid[0], mid[1]);
    PairNamesUnique(end[0], end[1]);
    SwapFirstStep();
    SwapSecondStep();
    TwoRowUpsert(cs, Country("3", "Beta", "AA", "g"), Country("4", "Alpha", "BB", "g"));
  }

  /** PostgreSQL runs the rows of the country upsert one at a time, in order, and raises the
      error of the first row that fails: a code an earlier row of the same statement already
      wrote cannot be affected a second time, and a row after which two countries share a name
      breaks the unique name. `seen` holds the codes the earlier rows wrote. */
  function RowByRowOutcome(cs: seq<Country>, rows: seq<Country>, seen: set<string>): (r: Option<SeedError>)
    ensures r.Some? ==> r.value == ConflictTwice || r.value == UniqueViolation
    decreases rows
  {
    if rows == [] then None
    else if rows[0].code in seen then Some(ConflictTwice)
    else
      var next := UpsertCountry(cs, rows[0]);
      if !UniqueBy(next, CountryName) then Some(UniqueViolation)
      else RowByRowOutcome(next, rows[1..], seen + {rows[0].code})
  }

  /** No row of the statement writes a code that an earlier row (or `seen`) already wrote. */
  predicate CodesWrittenOnce(rows: seq<Country>, seen: set<string>)
    decreases rows
  {
    rows == [] || (rows[0].code !in seen && CodesWrittenOnce(rows[1..], seen + {rows[0].code}))
  }

  /** Writing each code once is having distinct codes, none of them in `seen`. */
  lemma {:induction false} CodesWrittenOnceIff(rows: seq<Country>, seen: set<string>)
    ensures CodesWrittenOnce(rows, seen) <==>
      UniqueBy(rows, CountryCode) && forall c :: c in rows ==> c.code !in seen
    decreases rows
  {
    if rows != [] {
      var tail := rows[1..];
      CodesWrittenOnceIff(tail, seen + {rows[0].code});
      assert forall c :: c in rows <==> c == rows[0] || c in tail;
      if UniqueBy(rows, CountryCode) {
        UniqueTail(rows, CountryCode);
      }
      if UniqueBy(tail, CountryCode) && forall c :: c in tail ==> c.code != rows[0].code {
        assert rows == [rows[0]] + tail;
        UniqueCons(rows[0], tail, CountryCode);
      }
    }
  }

  /** The statement fails at no row exactly when every code is written once and every row
      keeps the names unique. */
  lemma {:induction false} RowByRowSucceedsIff(cs: seq<Country>, rows: seq<Country>, seen: set<string>)
    ensures RowByRowOutcome(cs, rows, seen).None? <==>
      CodesWrittenOnce(rows, seen) && NamesUniqueAtEachStep(cs, rows)
    decreases rows
  {
    if rows != [] {
      RowByRowSucceedsIff(UpsertCountry(cs, rows[0]), rows[1..], seen + {rows[0].code});
    }
  }

  /** A name clash at the first row is reported, although a later row repeats a code. */
  lemma NameClashBeforeRepeatedCode()
    ensures var rows := [Country("2", "Alpha", "BB", "g"), Country("3", "x", "CC", "g"), Country("4", "y", "CC", "g")];
      && !UniqueBy(rows, CountryCode)
      && RowByRowOutcome([Country("1", "Alpha", "AA", "g")], rows, {}) == Some(UniqueViolation)
  {
    var cs := [Country("1", "Alpha", "AA", "g")];
    var rows := [Country("2", "Alpha", "BB", "g"), Country("3", "x", "CC", "g"), Country("4", "y", "CC", "g")];
    assert "AA" != "BB" by {
      assert "AA"[0] != "BB"[0];
    }
    assert UpsertCountry(cs, rows[0]) == [cs[0], rows[0]];
    PairNamesUnique(cs[0], rows[0]);
    assert CountryCode(rows[1]) == CountryCode(rows[2]);
  }

  /** The outcome of the country upsert once the rows are built: no rows fail with
      `NoValues`; otherwise the first failing row decides the error, and a statement no row
      fails gives the number of rows. */
  function CountryUpsertOutcome(cs: seq<Country>, rows: seq<CountryRow>, newIds: seq<string>): Result<nat, SeedError>
    requires |newIds| == |rows|
  {
    if |rows| == 0 then Failure(NoValues)
    else
      match RowByRowOutcome(cs, CountriesWithIds(rows, newIds), {})
      case Some(e) => Failure(e)
      case None => Success(|rows|)
  }

  /** The country upsert succeeds exactly when there are rows, no code is listed twice and
      every row keeps the names unique. */
  lemma CountryUpsertSucceedsIff(cs: seq<Country>, rows: seq<CountryRow>, newIds: seq<string>)
    requires |newIds| == |rows|
    ensures CountryUpsertOutcome(cs, rows, newIds).Success? <==>
      |rows| > 0 && UniqueBy(rows, RowCode) && NamesUniqueAtEachStep(cs, CountriesWithIds(rows, newIds))
    ensures CountryUpsertOutcome(cs, rows, newIds).Success? ==> CountryUpsertOutcome(cs, rows, newIds).value == |rows|
  {
    var values := CountriesWithIds(rows, newIds);
    RowByRowSucceedsIff(cs, values, {});
    CodesWrittenOnceIff(values, {});
    assert forall i :: 0 <= i < |rows| ==> CountryCode(values[i]) == RowCode(rows[i]);
  }

  /** Reads the stored groups, builds the country rows and upserts them by code. Fails
      without change when a listed group is not stored or when there are no rows; otherwise
      the first row that writes a code twice or leaves two countries of the same name fails
      the statement without change, and without such a row it succeeds. */
  method UpdateCountries(db: Database, source: seq<SourceGroup>, newIds: seq<string>) returns (result: Result<nat, SeedError>)
    requires db.Valid() && |newIds| == CountryCount(source) && FreshIds(newIds, CountryIds(db.countries))
    modifies db
    ensures db.Valid()
    ensures result.Failure? ==> unchanged(db)
    ensures result.Failure? && result.error.GroupNotFound? <==> BuildCountryRows(old(db.countryGroups), source).Failure?
    ensures BuildCountryRows(old(db.countryGroups), source).Failure? ==>
      result == Failure(BuildCountryRows(old(db.countryGroups), source).error)
    ensures BuildCountryRows(old(db.countryGroups), source).Success? ==>
      result == CountryUpsertOutcome(old(db.countries), BuildCountryRows(old(db.countryGroups), source).value, newIds)
    ensures result.Success? ==>
      var rows := BuildCountryRows(old(db.countryGroups), source).value;
      && result.value == |rows|
      && db.countries == UpsertCountries(old(db.countries), CountriesWithIds(rows, newIds))
      && StoresEveryRow(db.countries, rows)
    ensures db.products == old(db.products) && db.customizations == old(db.customizations)
    ensures db.countryGroups == old(db.countryGroups) && db.discounts == old(db.discounts)
    ensures db.subscriptions == old(db.subscriptions) && db.views == old(db.views)
    ensures db.revalidations == old(db.revalidations)
  {
    var built := BuildCountryRows(db.countryGroups, source);
    if built.Failure? {
      return Failure(built.error);
    }
    var rows := built.value;
    if |rows| == 0 {
      return Failure(NoValues);
    }
    var values := CountriesWithIds(rows, newIds);
    var failed := RowByRowOutcome(db.countries, values, {});
    if failed.Some? {
      return Failure(failed.value);
    }
    CountryUpsertSucceedsIff(db.countries, rows, newIds);
    NamesUniqueAtEachStepEnd(db.countries, values);
    BuiltRowsReferToStoredGroups(db.countryGroups, source);
    UpsertCountriesFacts(db.countries, db.countryGroups, rows, newIds);
    db.countries := UpsertCountries(db.countries, values);
    result := Success(|rows|);
  }

  // ---------------------------------------------------------------------------
  // The seeding task

  /** Once the group upsert has succeeded, every listed group name is stored. */
  lemma GroupsUpsertedThenFound(gs: seq<CountryGroup>, source: seq<SourceGroup>)
    requires forall g :: g in source ==> exists x :: x in gs && x.name == g.name
    ensures AllGroupsFound(gs, source)
  {
    forall g | g in source ensures FindGroupByName(gs, g.name).Some? {
      var x :| x in gs && x.name == g.name;
    }
  }

  /** Once every built row is stored, every listed country is stored under its code in the
      stored group of its listed group's name. */
  lemma BuiltRowsStoredPlaceEveryCountry(gs: seq<CountryGroup>, cs: seq<Country>, source: seq<SourceGroup>)
    requires BuildCountryRows(gs, source).Success?
    requires StoresEveryRow(cs, BuildCountryRows(gs, source).value)
    ensures PlacesEveryCountry(cs, gs, source)
  {
    BuiltRowsCoverSource(gs, source);
    forall g, c | g in source && c in g.countries
      ensures exists x, y :: (x in cs && y in gs && x.code == c.country && x.name == c.countryName
                              && x.countryGroupId == y.id && y.name == g.name)
    {
      var y := FindGroupByName(gs, g.name).value;
      var row := CountryRow(c.countryName, c.country, y.id);
      assert row in BuildCountryRows(gs, source).value;
      var x :| x in cs && x.code == row.code && x.name == row.name && x.countryGroupId == row.countryGroupId;
    }
  }

  /** The seeding task: the group upsert, then (only if it succeeded) the country upsert. Because
      the groups are stored first, the "not found" error can never be raised, and on success
      every listed country sits in the group it is listed under. */
  method Seed(db: Database, source: seq<SourceGroup>, groupIds: seq<string>, countryIds: seq<string>)
    returns (result: Result<nat, SeedError>)
    requires db.Valid()
    requires |groupIds| == |source| && FreshIds(groupIds, GroupIds(db.countryGroups))
    requires |countryIds| == CountryCount(source) && FreshIds(countryIds, CountryIds(db.countries))
    modifies db
    ensures db.Valid()
    ensures result.Failure? ==> !result.error.GroupNotFound?
    ensures |source| == 0 || !UniqueBy(source, SourceName) ==>
      result == Failure(if |source| == 0 then NoValues else ConflictTwice) && unchanged(db)
    ensures |source| > 0 && UniqueBy(source, SourceName) ==>
      var gs := UpsertGroups(old(db.countryGroups), GroupRows(source, groupIds));
      && db.countryGroups == gs
      && BuildCountryRows(gs, source).Success?
      && result == CountryUpsertOutcome(old(db.countries), BuildCountryRows(gs, source).value, countryIds)
      && (result.Success? ==>
            var rows := BuildCountryRows(gs, source).value;
            result.value == |rows| && db.countries == UpsertCountries(old(db.countries), CountriesWithIds(rows, countryIds)))
      && (result.Failure? ==> db.countries == old(db.countries))
    ensures result.Success? ==> PlacesEveryCountry(db.countries, db.countryGroups, source)
    ensures db.products == old(db.products) && db.customizations == old(db.customizations)
    ensures db.discounts == old(db.discounts) && db.views == old(db.views)
    ensures db.subscriptions == old(db.subscriptions) && db.revalidations == old(db.revalidations)
  {
    var groups := UpdateCountryGroup(db, source, groupIds);
    if groups.Failure? {
      return groups;
    }
    ghost var gs := db.countryGroups;
    GroupsUpsertedThenFound(gs, source);
    assert BuildCountryRows(gs, source).Success?;
    result := UpdateCountries(db, source, countryIds);
    if result.Success? {
      BuiltRowsStoredPlaceEveryCountry(gs, db.countries, source);
    }
  }
}
