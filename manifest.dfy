/**
 * The order list of a Cargo manifest, src/day_5.rs: the request's
 * Content-Type picks TOML, YAML or JSON; a manifest must carry the keyword
 * "Christmas 2024"; the orders under `package.metadata.orders` whose item
 * is a string and whose quantity a `u32` are listed as `item: quantity`
 * lines. Parsing is not modelled: each format's parse result is given.
 */
module CargoOrders {
  import opened Wrappers
  import Radix

  const U32_LIMIT: nat := 0x1_0000_0000
  const MAGIC_KEYWORD: string := "Christmas 2024"

  /** A TOML value as an order field holds it; other kinds are not told apart. */
  datatype TomlValue = Str(s: string) | Integer(i: int) | OtherValue

  datatype Order = Order(item: Option<TomlValue>, quantity: Option<TomlValue>)

  datatype Metadata = Metadata(orders: Option<seq<Order>>)

  /** `package.keywords`: inherited from the workspace, or listed here. */
  datatype Keywords = Inherited | Local(words: seq<string>)

  datatype Package = Package(keywords: Option<Keywords>, metadata: Option<Metadata>)

  datatype Manifest = Manifest(package: Option<Package>)

  /** What each of the three parsers makes of the request body; None is a parse error. */
  datatype Parsed = Parsed(toml: Option<Manifest>, yaml: Option<Manifest>, json: Option<Manifest>)

  datatype Response = Response(status: nat, body: string)

  const NO_CONTENT := Response(204, "")
  const UNSUPPORTED_MEDIA_TYPE := Response(415, "")
  const INVALID_MANIFEST := Response(400, "Invalid manifest")
  const NO_MAGIC_KEYWORD := Response(400, "Magic keyword not provided")

  /** The manifest for a Content-Type: None for a type none of the parsers handles, Some(None) for a parse error. */
  function Chosen(contentType: string, parsed: Parsed): (r: Option<Option<Manifest>>)
    ensures r.None? <==> contentType !in {"application/toml", "application/yaml", "application/json"}
  {
    if contentType == "application/toml" then Some(parsed.toml)
    else if contentType == "application/yaml" then Some(parsed.yaml)
    else if contentType == "application/json" then Some(parsed.json)
    else None
  }

  /** The package lists "Christmas 2024" among its own keywords. */
  predicate HasMagicKeyword(m: Manifest)
  {
    m.package.Some? && m.package.value.keywords.Some? &&
    match m.package.value.keywords.value
    case Inherited => false
    case Local(words) => exists i :: 0 <= i < |words| && words[i] == MAGIC_KEYWORD
  }

  /**
   * The keyword test as `unwrap_or_default` reads it: false without a
   * package or a keyword list, false for inherited keywords, and for a
   * local list true exactly when the magic keyword is one of its words.
   */
  lemma KeywordMeaning(m: Manifest)
    ensures m.package.None? || m.package.value.keywords.None? ==> !HasMagicKeyword(m)
    ensures m.package.Some? && m.package.value.keywords == Some(Inherited) ==> !HasMagicKeyword(m)
    ensures m.package.Some? && m.package.value.keywords.Some? && m.package.value.keywords.value.Local? ==>
      (HasMagicKeyword(m) <==> MAGIC_KEYWORD in m.package.value.keywords.value.words)
  {
  }

  /** The `filter_map` closure: a string item and an integer quantity that fits a `u32`. */
  function Keep(order: Order): (r: Option<(string, nat)>)
    ensures r.Some? ==> r.value.1 < U32_LIMIT
    ensures r.Some? <==> (order.item.Some? && order.item.value.Str? &&
      order.quantity.Some? && order.quantity.value.Integer? && 0 <= order.quantity.value.i < U32_LIMIT)
  {
    match (order.item, order.quantity)
    case (Some(Str(item)), Some(Integer(q))) => if 0 <= q < U32_LIMIT then Some((item, q)) else None
    case _ => None
  }

  /** The orders that `Keep` accepts, in their order. */
  function Kept(orders: seq<Order>): (kept: seq<(string, nat)>)
    ensures |kept| <= |orders|
  {
    if orders == [] then []
    else
      match Keep(orders[0])
      case None => Kept(orders[1..])
      case Some(k) => [k] + Kept(orders[1..])
  }

  /** Keeping distributes over concatenation: orders are kept or dropped one by one, in input order. */
  lemma {:induction false} KeptAppend(a: seq<Order>, b: seq<Order>)
    ensures Kept(a + b) == Kept(a) + Kept(b)
  {
    if a != [] {
      assert (a + b)[0] == a[0];
      assert (a + b)[1..] == a[1..] + b;
      KeptAppend(a[1..], b);
      if Keep(a[0]).Some? {
        var k := Keep(a[0]).value;
        assert Kept(a + b) == [k] + Kept(a[1..] + b);
        assert Kept(a) == [k] + Kept(a[1..]);
        assert [k] + (Kept(a[1..]) + Kept(b)) == ([k] + Kept(a[1..])) + Kept(b);
      } else {
        assert Kept(a + b) == Kept(a[1..] + b);
        assert Kept(a) == Kept(a[1..]);
      }
    } else {
      assert a + b == b;
    }
  }

  /** Every kept entry comes from an order that `Keep` accepts, and every accepted order is kept. */
  lemma {:induction false} KeptMembers(orders: seq<Order>)
    ensures forall k :: k in Kept(orders) ==> exists i :: 0 <= i < |orders| && Keep(orders[i]) == Some(k)
    ensures forall i :: 0 <= i < |orders| && Keep(orders[i]).Some? ==> Keep(orders[i]).value in Kept(orders)
  {
    if orders != [] {
      KeptMembers(orders[1..]);
      forall k | k in Kept(orders)
        ensures exists i :: 0 <= i < |orders| && Keep(orders[i]) == Some(k)
      {
        if Keep(orders[0]) != Some(k) {
          var j :| 0 <= j < |orders[1..]| && Keep(orders[1..][j]) == Some(k);
          assert orders[j + 1] == orders[1..][j];
        }
      }
      forall i | 0 <= i < |orders| && Keep(orders[i]).Some?
        ensures Keep(orders[i]).value in Kept(orders)
      {
        if i > 0 {
          assert orders[i] == orders[1..][i - 1];
        }
      }
    }
  }

  /** One output line: `item: quantity`, pushed as the item, ": " and the decimal quantity. */
  function Line(k: (string, nat)): (line: string)
    ensures |line| > 0 && '0' <= line[|line| - 1] <= '9'
  {
    var digits := Radix.Decimal(k.1);
    assert (k.0 + ": " + digits)[|k.0 + ": " + digits| - 1] == digits[|digits| - 1];
    k.0 + ": " + digits
  }

  /** The `fold` over kept orders from `(counter, acc)`: a newline before every line but the first, and a count of lines. */
  function Fold(kept: seq<(string, nat)>, counter: nat, acc: string): (r: (nat, string))
    ensures r.0 == counter + |kept|
  {
    if kept == [] then (counter, acc)
    else
      var acc' := (if counter > 0 then acc + "\n" else acc) + Line(kept[0]);
      Fold(kept[1..], counter + 1, acc')
  }

  /** The lines of the kept orders joined with a newline between each two, none at the end. */
  function Joined(kept: seq<(string, nat)>): (s: string)
    ensures kept != [] ==> |s| > 0 && '0' <= s[|s| - 1] <= '9'
  {
    if kept == [] then ""
    else if |kept| == 1 then Line(kept[0])
    else
      var rest := Joined(kept[1..]);
      assert (Line(kept[0]) + "\n" + rest)[|Line(kept[0]) + "\n" + rest| - 1] == rest[|rest| - 1];
      Line(kept[0]) + "\n" + rest
  }

  lemma Assoc(a: string, b: string, c: string)
    ensures (a + b) + c == a + (b + c)
  {
  }

  /** After the first line, the fold appends each further line behind a newline. */
  lemma {:induction false} FoldAfterFirst(kept: seq<(string, nat)>, counter: nat, acc: string)
    requires counter > 0
    ensures Fold(kept, counter, acc).1 == (if kept == [] then acc else (acc + "\n") + Joined(kept))
  {
    if kept != [] {
      var line := Line(kept[0]);
      var acc' := (acc + "\n") + line;
      FoldAfterFirst(kept[1..], counter + 1, acc');
      if |kept| > 1 {
        var rest := Joined(kept[1..]);
        Assoc(acc + "\n", line, "\n");
        Assoc(acc + "\n", line + "\n", rest);
      }
    }
  }

  /** The source's fold from `(0, "")` counts the kept orders and joins their lines with newlines. */
  lemma {:induction false} FoldJoins(kept: seq<(string, nat)>)
    ensures Fold(kept, 0, "") == (|kept|, Joined(kept))
  {
    if kept != [] {
      var line := Line(kept[0]);
      assert "" + line == line;
      FoldAfterFirst(kept[1..], 1, line);
    }
  }

  /** `manifest`: the response to a request with the given Content-Type (None when absent) and parse results. */
  function ManifestResponse(contentType: Option<string>, parsed: Parsed): (r: Response)
    ensures r.status in {200, 204, 400, 415}
    ensures r.status == 200 ==> r.body != ""
    ensures r.status == 415 <==> contentType.Some? && Chosen(contentType.value, parsed).None?
  {
    if contentType.None? then NO_CONTENT
    else
      match Chosen(contentType.value, parsed)
      case None => UNSUPPORTED_MEDIA_TYPE
      case Some(None) => INVALID_MANIFEST
      case Some(Some(manifest)) =>
        if !HasMagicKeyword(manifest) then NO_MAGIC_KEYWORD
        else
          var package := manifest.package.value;
          if package.metadata.None? || package.metadata.value.orders.None? then NO_CONTENT
          else
            var (counter, validOrders) := Fold(Kept(package.metadata.value.orders.value), 0, "");
            FoldJoins(Kept(package.metadata.value.orders.value));
            if counter == 0 then NO_CONTENT
            else Response(200, validOrders)
  }

  /** The checks before the orders, in the source's order: header, media type, parse, keyword. */
  lemma EarlyReturns(contentType: Option<string>, parsed: Parsed)
    ensures contentType.None? ==> ManifestResponse(contentType, parsed) == NO_CONTENT
    ensures contentType.Some? && Chosen(contentType.value, parsed) == Some(None) ==>
      ManifestResponse(contentType, parsed) == INVALID_MANIFEST
    ensures (contentType.Some? && Chosen(contentType.value, parsed).Some? &&
      Chosen(contentType.value, parsed).value.Some? &&
      !HasMagicKeyword(Chosen(contentType.value, parsed).value.value)) ==>
      ManifestResponse(contentType, parsed) == NO_MAGIC_KEYWORD
  {
  }

  /** Inherited keywords never carry the magic keyword. */
  lemma InheritedKeywordsRejected(contentType: string, parsed: Parsed, metadata: Option<Metadata>)
    requires Chosen(contentType, parsed) == Some(Some(Manifest(Some(Package(Some(Inherited), metadata)))))
    ensures ManifestResponse(Some(contentType), parsed) == NO_MAGIC_KEYWORD
  {
  }

  /**
   * For an accepted manifest with an order list: 200 with the kept orders'
   * lines joined by newlines when at least one is kept, 204 otherwise; a
   * missing metadata table or order list is 204 as well.
   */
  lemma OrdersAnswer(contentType: string, parsed: Parsed, manifest: Manifest)
    requires Chosen(contentType, parsed) == Some(Some(manifest)) && HasMagicKeyword(manifest)
    ensures var package := manifest.package.value;
      package.metadata.None? || package.metadata.value.orders.None? ==>
        ManifestResponse(Some(contentType), parsed) == NO_CONTENT
    ensures var package := manifest.package.value;
      package.metadata.Some? && package.metadata.value.orders.Some? ==>
        var kept := Kept(package.metadata.value.orders.value);
        ManifestResponse(Some(contentType), parsed) ==
          if kept == [] then NO_CONTENT else Response(200, Joined(kept))
  {
    var package := manifest.package.value;
    if package.metadata.Some? && package.metadata.value.orders.Some? {
      FoldJoins(Kept(package.metadata.value.orders.value));
    }
  }

  /** Four orders, two of them unusable: only the others are listed, one per line. */
  lemma OrdersExample()
    ensures Kept([Order(Some(Str("Toy car")), Some(Integer(2))),
                  Order(Some(Str("Lego brick")), Some(Integer(U32_LIMIT))),
                  Order(Some(Str("Doll")), None),
                  Order(Some(Str("Ball")), Some(Integer(10)))]) == [("Toy car", 2), ("Ball", 10)]
    ensures Joined([("Toy car", 2), ("Ball", 10)]) == "Toy car: 2\nBall: 10"
  {
    var orders := [Order(Some(Str("Toy car")), Some(Integer(2))),
                   Order(Some(Str("Lego brick")), Some(Integer(U32_LIMIT))),
                   Order(Some(Str("Doll")), None),
                   Order(Some(Str("Ball")), Some(Integer(10)))];
    assert Kept(orders[4..]) == [];
    assert Kept(orders[3..]) == [("Ball", 10)];
    assert Kept(orders[2..]) == [("Ball", 10)];
    assert Kept(orders[1..]) == [("Ball", 10)];
    assert Radix.Decimal(2) == "2";
    assert Radix.Decimal(10) == "10";
    assert Line(("Toy car", 2)) == "Toy car: 2";
    assert Line(("Ball", 10)) == "Ball: 10";
    var kept := [("Toy car", 2), ("Ball", 10)];
    assert Joined(kept[1..]) == "Ball: 10";
  }
}
