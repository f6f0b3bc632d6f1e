/**
 * The price table built once at start-up: the configuration's three
 * colour entries, keyed by their lower-cased field name ("blue", "red",
 * "white"), each with a peak and an off-peak price.
 */
module Prices {
  import opened Text

  /** A price per kWh; the adapter only copies prices, it never computes with them. */
  type Amount = real

  /** One colour's prices. */
  datatype Price = Price(peak: Amount, offPeak: Amount)

  /** The configuration's `Prices` block: a struct with the fields Blue, Red and White. */
  datatype PriceConfig = PriceConfig(blue: Price, red: Price, white: Price)

  /** The table the handler reads: lower-cased colour name to prices. */
  type PriceTable = map<string, Price>

  /** The names the table is keyed by once start-up has succeeded. */
  const PriceKeys: set<string> := {"blue", "red", "white"}

  /** `structs.Map(conf.Prices)`: the struct as a map from field name to the field's value. */
  function StructFields(c: PriceConfig): (m: map<string, Price>)
    ensures m.Keys == {"Blue", "Red", "White"}
    ensures |m| == 3
  {
    var m := map["Blue" := c.blue, "Red" := c.red, "White" := c.white];
    assert m.Keys == {"Blue", "Red", "White"};
    m
  }

  /** A Go map read: a missing key yields the zero value. */
  function Lookup(prices: PriceTable, key: string): Price
  {
    if key in prices then prices[key] else Price(0.0, 0.0)
  }

  /** The lower-cased names of a set of keys. */
  function LowerKeys(keys: set<string>): set<string>
  {
    set k | k in keys :: ToLower(k)
  }

  /** Start-up either has its table or stops with "missing prices for red/blue/white". */
  datatype TableResult = Built(table: PriceTable) | MissingPrices

  /** True when some configuration entry whose name lowers to `key` holds `p`. */
  ghost predicate FromEntry(configPrices: map<string, Price>, key: string, p: Price) {
    exists k :: k in configPrices && ToLower(k) == key && configPrices[k] == p
  }

  /**
   * The start-up loop: refuses a map that does not hold exactly three
   * entries, otherwise stores each entry under its lower-cased name. The map
   * is visited in no fixed order; when two names lower to the same key one
   * of them wins.
   */
  method BuildPriceTable(configPrices: map<string, Price>) returns (r: TableResult)
    ensures r.MissingPrices? <==> |configPrices| != 3
    ensures r.Built? ==> r.table.Keys == LowerKeys(configPrices.Keys)
    ensures r.Built? ==> forall key :: key in r.table ==> FromEntry(configPrices, key, r.table[key])
  {
    if |configPrices| != 3 {
      return MissingPrices;
    }
    var prices: PriceTable := map[];
    var todo := configPrices.Keys;
    while todo != {}
      invariant todo <= configPrices.Keys
      invariant prices.Keys == LowerKeys(configPrices.Keys - todo)
      invariant forall key :: key in prices ==> FromEntry(configPrices, key, prices[key])
      decreases todo
    {
      var k :| k in todo;
      prices := prices[ToLower(k) := configPrices[k]];
      todo := todo - {k};
      assert configPrices.Keys - todo == (configPrices.Keys - (todo + {k})) + {k};
    }
    r := Built(prices);
  }

  /** The table start-up produces from a configuration. */
  function ColorTable(c: PriceConfig): (t: PriceTable)
    ensures t.Keys == PriceKeys
  {
    map["blue" := c.blue, "red" := c.red, "white" := c.white]
  }

  lemma FieldNamesLowered()
    ensures ToLower("Blue") == "blue" && ToLower("Red") == "red" && ToLower("White") == "white"
  {
    assert ToLower("Blue")[0] == 'b';
    assert ToLower("Red")[0] == 'r';
    assert ToLower("White")[0] == 'w';
  }

  /**
   * Start-up on a real configuration: the struct always has its three
   * fields, so the table is built and holds exactly the three colours with
   * their configured prices.
   */
  method LoadPrices(c: PriceConfig) returns (prices: PriceTable)
    ensures prices.Keys == PriceKeys
    ensures prices["blue"] == c.blue && prices["red"] == c.red && prices["white"] == c.white
    ensures prices == ColorTable(c)
  {
    var fields := StructFields(c);
    var r := BuildPriceTable(fields);
    prices := r.table;
    FieldNamesLowerToPriceKeys(c);
    EntryOfField(c, fields, prices, "Blue", "blue");
    EntryOfField(c, fields, prices, "Red", "red");
    EntryOfField(c, fields, prices, "White", "white");
    ColorTableDetermined(c, prices);
  }

  /** A table with the three colour keys and the configured prices is the configuration's table. */
  lemma ColorTableDetermined(c: PriceConfig, prices: PriceTable)
    requires prices.Keys == PriceKeys
    requires prices["blue"] == c.blue && prices["red"] == c.red && prices["white"] == c.white
    ensures prices == ColorTable(c)
  {
    var t := ColorTable(c);
    forall key | key in prices ensures prices[key] == t[key] {
      assert key == "blue" || key == "red" || key == "white";
    }
  }

  lemma FieldNamesLowerToPriceKeys(c: PriceConfig)
    ensures LowerKeys(StructFields(c).Keys) == PriceKeys
  {
    FieldNamesLowered();
    var keys := StructFields(c).Keys;
    assert keys == {"Blue", "Red", "White"};
    forall x | x in PriceKeys ensures x in LowerKeys(keys) {
      if x == "blue" { assert ToLower("Blue") == x; }
      else if x == "red" { assert ToLower("Red") == x; }
      else { assert ToLower("White") == x; }
    }
  }

  /** In the struct's map only the field `name` lowers to `key`, so the table holds that field. */
  lemma EntryOfField(c: PriceConfig, fields: map<string, Price>, prices: PriceTable, name: string, key: string)
    requires fields == StructFields(c) && name in fields && ToLower(name) == key
    requires key in prices && FromEntry(fields, key, prices[key])
    ensures prices[key] == fields[name]
  {
    FieldNamesLowered();
    var k :| k in fields && ToLower(k) == key && fields[k] == prices[key];
    assert k == "Blue" || k == "Red" || k == "White";
  }
}
