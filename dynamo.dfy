/** The slice of a DynamoDB table the serverless handlers use: items keyed by
    the string attribute "deviceId", whole-item puts, single-attribute SET
    updates and consistent reads. Failures of the service are inputs. */
module Dynamo {

  import opened Options

  /** AttributeValueMemberS and AttributeValueMemberN: numbers travel as text. */
  datatype Attr = S(s: string) | N(n: string)

  type Item = map<string, Attr>

  /** The table's hash-key attribute. */
  const KeyAttr: string := "deviceId"

  /** What a handler leaves behind: the table after the call and its reply. */
  datatype Step<+R> = Step(items: map<string, Item>, reply: R)

  /** GetItem's result: the call failed, or it found the item or nothing. */
  datatype Fetch = GetFailed | Fetched(item: Option<Item>)

  function Lookup(items: map<string, Item>, key: string): (r: Option<Item>)
    ensures r.Some? <==> key in items
    ensures r.Some? ==> r.value == items[key]
  {
    if key in items then Some(items[key]) else None
  }

  /** UpdateItem with `SET attr = :v`: changes that one attribute of the item
      and keeps its others; on a missing key DynamoDB creates an item holding
      the key and the attribute. No other item changes. */
  function SetAttribute(items: map<string, Item>, key: string, attr: string, v: Attr): (r: map<string, Item>)
    ensures r.Keys == items.Keys + {key}
    ensures forall k :: k in items && k != key ==> r[k] == items[k]
    ensures attr in r[key] && r[key][attr] == v
    ensures key in items ==> r[key].Keys == items[key].Keys + {attr}
    ensures key in items ==> forall a :: a in items[key] && a != attr ==> r[key][a] == items[key][a]
  {
    if key in items then items[key := items[key][attr := v]]
    else items[key := map[KeyAttr := S(key), attr := v]]
  }

  class Table {
    const name: string
    var items: map<string, Item>

    constructor (name: string, items: map<string, Item>)
      ensures this.name == name && this.items == items
    {
      this.name := name;
      this.items := items;
    }

    /** GetItem with ConsistentRead: sees every earlier successful write. */
    method GetItem(key: string, fails: bool) returns (out: Fetch)
      ensures fails ==> out == GetFailed
      ensures !fails ==> out == Fetched(Lookup(items, key))
    {
      if fails {
        out := GetFailed;
      } else {
        out := Fetched(Lookup(items, key));
      }
    }

    /** PutItem: replaces the whole item under key, or fails with an error
        text and leaves the table as it was. */
    method PutItem(key: string, item: Item, failure: Option<string>) returns (err: Option<string>)
      modifies this
      ensures err == failure
      ensures failure.None? ==> items == old(items)[key := item]
      ensures failure.Some? ==> items == old(items)
    {
      err := failure;
      if failure.None? {
        items := items[key := item];
      }
    }

    /** UpdateItem `SET attr = :v`, or a failed call that changes nothing. */
    method SetAttr(key: string, attr: string, v: Attr, fails: bool) returns (ok: bool)
      modifies this
      ensures ok == !fails
      ensures !fails ==> items == SetAttribute(old(items), key, attr, v)
      ensures fails ==> items == old(items)
    {
      ok := !fails;
      if !fails {
        items := SetAttribute(items, key, attr, v);
      }
    }
  }
}
