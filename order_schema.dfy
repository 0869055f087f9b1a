/** The request schemas of the order endpoints, as the predicate they
    decide and the parse that zod performs (unknown keys are stripped). */
module OrderSchema {
  import opened Common
  import opened Json
  import opened Text

  datatype OrderItemRequest = OrderItemRequest(menuItemId: int, quantity: int)

  datatype CreateOrderRequest = CreateOrderRequest(branchId: int, deliveryAddress: string,
                                                   items: seq<OrderItemRequest>)

  const MinAddressLength := 5

  /** `z.number().int()` on a field: zod 4 admits only safe integers. */
  predicate IntField(v: JsonValue, key: string) {
    Field(v, key).Some? && IsSafeInteger(Field(v, key).value)
  }

  function IntOf(v: JsonValue): (n: int)
    requires IsSafeInteger(v)
    ensures -MaxSafeInteger <= n <= MaxSafeInteger && n as real == v.n
  {
    v.n.Floor
  }

  /** A safe integer, as a request field holds it. */
  predicate Safe(n: int) {
    -MaxSafeInteger <= n <= MaxSafeInteger
  }

  /** `orderItemRequestSchema`: an integer menu_item_id and an integer
      quantity of at least 1. */
  predicate ItemConforms(v: JsonValue) {
    && IntField(v, "menu_item_id")
    && IntField(v, "quantity")
    && IntOf(v.fields["quantity"]) >= 1
  }

  /** `createOrderSchema`: an integer branch_id, a delivery_address of at
      least 5 UTF-16 code units and a non-empty array of conforming items. */
  predicate CreateOrderConforms(v: JsonValue) {
    && IntField(v, "branch_id")
    && Field(v, "delivery_address").Some? && Field(v, "delivery_address").value.JStr?
    && Utf16Length(Field(v, "delivery_address").value.s) >= MinAddressLength
    && Field(v, "items").Some? && Field(v, "items").value.JArr?
    && |Field(v, "items").value.elems| >= 1
    && forall i :: 0 <= i < |Field(v, "items").value.elems| ==> ItemConforms(Field(v, "items").value.elems[i])
  }

  /** What a parsed request always satisfies. */
  predicate WellFormed(req: CreateOrderRequest) {
    && Safe(req.branchId)
    && Utf16Length(req.deliveryAddress) >= MinAddressLength
    && |req.items| >= 1
    && forall i :: 0 <= i < |req.items| ==>
         Safe(req.items[i].menuItemId) && Safe(req.items[i].quantity) && req.items[i].quantity >= 1
  }

  const InvalidBody := "request body does not match the schema"

  function ParseItem(v: JsonValue): (r: Result<OrderItemRequest>)
    ensures r.Ok? <==> ItemConforms(v)
    ensures r.Err? ==> r.error == ZodError(InvalidBody)
    ensures r.Ok? ==> r.value.quantity >= 1 && Safe(r.value.quantity) && Safe(r.value.menuItemId)
    ensures r.Ok? ==> r.value.menuItemId as real == v.fields["menu_item_id"].n
                      && r.value.quantity as real == v.fields["quantity"].n
  {
    if ItemConforms(v) then Ok(OrderItemRequest(IntOf(v.fields["menu_item_id"]), IntOf(v.fields["quantity"])))
    else Err(ZodError(InvalidBody))
  }

  function ParseItems(vs: seq<JsonValue>): (r: Result<seq<OrderItemRequest>>)
    ensures r.Ok? <==> forall i :: 0 <= i < |vs| ==> ItemConforms(vs[i])
    ensures r.Err? ==> r.error == ZodError(InvalidBody)
    ensures r.Ok? ==> |r.value| == |vs| && forall i :: 0 <= i < |vs| ==> r.value[i] == ParseItem(vs[i]).value
  {
    if vs == [] then Ok([])
    else
      match (ParseItem(vs[0]), ParseItems(vs[1..]))
      case (Ok(it), Ok(rest)) =>
        assert forall i :: 1 <= i < |vs| ==> vs[i] == vs[1..][i - 1];
        Ok([it] + rest)
      case (Err(e), _) => Err(e)
      case (_, Err(e)) =>
        assert forall i :: 1 <= i < |vs| ==> vs[i] == vs[1..][i - 1];
        Err(e)
  }

  /** `createOrderSchema.parse(body)`: succeeds exactly on conforming bodies,
      echoes their fields and keeps nothing else. */
  function ParseCreateOrder(v: JsonValue): (r: Result<CreateOrderRequest>)
    ensures r.Ok? <==> CreateOrderConforms(v)
    ensures r.Err? ==> r.error.zod
    ensures r.Ok? ==> WellFormed(r.value)
    ensures r.Ok? ==> && r.value.branchId == IntOf(v.fields["branch_id"])
                      && r.value.deliveryAddress == v.fields["delivery_address"].s
                      && |r.value.items| == |v.fields["items"].elems|
  {
    if !IntField(v, "branch_id") then Err(ZodError(InvalidBody))
    else if !(Field(v, "delivery_address").Some? && Field(v, "delivery_address").value.JStr?
              && Utf16Length(Field(v, "delivery_address").value.s) >= MinAddressLength) then Err(ZodError(InvalidBody))
    else if !(Field(v, "items").Some? && Field(v, "items").value.JArr? && |Field(v, "items").value.elems| >= 1) then
      Err(ZodError(InvalidBody))
    else
      var items :- ParseItems(v.fields["items"].elems);
      Ok(CreateOrderRequest(IntOf(v.fields["branch_id"]), v.fields["delivery_address"].s, items))
  }

  function ItemJson(it: OrderItemRequest): JsonValue {
    JObj(map["menu_item_id" := JNum(it.menuItemId as real), "quantity" := JNum(it.quantity as real)])
  }

  /** The body a client sends for a request. */
  function RequestJson(req: CreateOrderRequest): JsonValue {
    JObj(map["branch_id" := JNum(req.branchId as real),
             "delivery_address" := JStr(req.deliveryAddress),
             "items" := JArr(seq(|req.items|, i requires 0 <= i < |req.items| => ItemJson(req.items[i])))])
  }

  /** Every well-formed request survives being sent as JSON and parsed back. */
  lemma ParseRequestJson(req: CreateOrderRequest)
    requires WellFormed(req)
    ensures ParseCreateOrder(RequestJson(req)) == Ok(req)
  {
    var v := RequestJson(req);
    var elems := v.fields["items"].elems;
    forall i | 0 <= i < |elems|
      ensures ItemConforms(elems[i]) && ParseItem(elems[i]).value == req.items[i]
    {
      assert elems[i] == ItemJson(req.items[i]);
      assert (req.items[i].menuItemId as real).Floor == req.items[i].menuItemId;
      assert (req.items[i].quantity as real).Floor == req.items[i].quantity;
    }
    assert (req.branchId as real).Floor == req.branchId;
    var r := ParseCreateOrder(v);
    assert r.Ok?;
    assert r.value.items == req.items;
  }

  /** `.min(5)` counts UTF-16 code units: three characters beyond the Basic
      Multilingual Plane make six, a long enough address. */
  lemma AstralAddressLength()
    ensures Utf16Length("\U{1F600}\U{1F600}\U{1F600}") == 6
  {
    var e := "\U{1F600}";
    assert e[0] as int >= 0x1_0000;
    assert "\U{1F600}\U{1F600}\U{1F600}"[1..] == e + e;
    assert (e + e)[1..] == e;
  }

  /** `.int()` refuses an integer beyond the safe range of a double. */
  lemma UnsafeBranchRejected(v: JsonValue)
    requires Field(v, "branch_id") == Some(JNum((MaxSafeInteger + 1) as real))
    ensures ParseCreateOrder(v) == Err(ZodError(InvalidBody))
  {
    assert (((MaxSafeInteger + 1) as real).Floor) == MaxSafeInteger + 1;
  }

  /** Keys other than the three the schema names do not change the parse. */
  lemma UnknownKeysStripped(fields: map<string, JsonValue>, key: string, extra: JsonValue)
    requires key != "branch_id" && key != "delivery_address" && key != "items"
    ensures ParseCreateOrder(JObj(fields[key := extra])) == ParseCreateOrder(JObj(fields))
  {
    var a, b := JObj(fields[key := extra]), JObj(fields);
    assert Field(a, "branch_id") == Field(b, "branch_id");
    assert Field(a, "delivery_address") == Field(b, "delivery_address");
    assert Field(a, "items") == Field(b, "items");
  }

  /** `patchActionSchema`: an object whose optional `reason` is a string. */
  function ParsePatchAction(v: JsonValue): (r: Result<Option<string>>)
    ensures r.Ok? <==> v.JObj? && ("reason" in v.fields ==> v.fields["reason"].JStr?)
    ensures r.Ok? && r.value.Some? ==> "reason" in v.fields && v.fields["reason"] == JStr(r.value.value)
    ensures r.Ok? && r.value.None? ==> "reason" !in v.fields
  {
    if !v.JObj? then Err(ZodError(InvalidBody))
    else if "reason" !in v.fields then Ok(None)
    else if v.fields["reason"].JStr? then Ok(Some(v.fields["reason"].s))
    else Err(ZodError(InvalidBody))
  }
}
