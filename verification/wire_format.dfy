/**
 The names under which models travel, letter by letter
 (FederatedLearningServer/src/JSONConverter.c:8-290,
 FederatedLearningESP32/components/cJSON/JSONConverter.c:6-259,
 FederatedLearningServer/src/cJSON.c:128-154, 1880-1910).
 */
module WireFormat {
  import opened Bytes
  import opened Converters
  import opened JsonAccess
  import opened JsonGrammar
  import opened JsonText
  import opened LinkedNetwork
  import opened NetworkJson

  /** The bytes of a name in ASCII. */
  predicate Spelled(t: bytes, s: string) {
    |t| == |s| && forall i :: 0 <= i < |s| ==> t[i] == s[i] as int
  }

  /** A name as the searches find it: in any mixture of letter cases. */
  predicate Matches(t: bytes, s: string) {
    |t| == |s| && forall i :: 0 <= i < |s| ==> s[i] as int < 128 && SameLetter(t[i], s[i] as int)
  }

  predicate Ascii(s: string) {
    forall i :: 0 <= i < |s| ==> s[i] as int < 128
  }

  lemma NameIsSpelled(s: string)
    requires Ascii(s)
    ensures Spelled(Name(s), s)
  {
  }

  lemma NameMatchesIff(t: bytes, s: string)
    requires Ascii(s)
    ensures SameName(Name(s), t, false) <==> Matches(t, s)
  {
    NameIsSpelled(s);
    SameNameIff(Name(s), t);
    forall i | 0 <= i < |s| && |t| == |s| ensures SameLetter(Name(s)[i], t[i]) <==> SameLetter(t[i], s[i] as int) {
    }
  }

  // ----- writing

  predicate Is(m: Member, name: string, value: Json) {
    Spelled(m.key, name) && m.value == value
  }

  /** A neuron's items: four members under these names, in this order. */
  predicate WiredNeuron(c: Codec, j: Json, n: NeuronContent) {
    && j.Obj? && |j.members| == 4
    && Is(j.members[0], "neurontype", Str(n.neurontype))
    && Is(j.members[1], "weights", Int(n.weights))
    && Is(j.members[2], "bias", c.write(n.bias))
    && Spelled(j.members[3].key, "weightsArray") && j.members[3].value.Arr?
    && |j.members[3].value.items| == |n.list|
    && forall k :: 0 <= k < |n.list| ==> j.members[3].value.items[k] == c.write(n.list[k])
  }

  predicate WiredLayer(c: Codec, j: Json, l: LayerContent) {
    && j.Obj? && |j.members| == 3
    && Is(j.members[0], "activationfunctiontype", Int(l.activationfunctiontype))
    && Is(j.members[1], "neurons", Int(l.neurons))
    && Spelled(j.members[2].key, "neuronsArray") && j.members[2].value.Arr?
    && |j.members[2].value.items| == |l.list|
    && forall k :: 0 <= k < |l.list| ==> WiredNeuron(c, j.members[2].value.items[k], l.list[k])
  }

  predicate WiredNet(c: Codec, j: Json, n: NetContent) {
    && j.Obj? && |j.members| == 8
    && Is(j.members[0], "epoch", Int(n.epoch))
    && Is(j.members[1], "alpha", c.write(n.alpha))
    && Is(j.members[2], "regularization", Int(n.regularization))
    && Is(j.members[3], "lambda", c.write(n.lambda))
    && Is(j.members[4], "percentualtraining", Int(n.percentualtraining))
    && Is(j.members[5], "lossfunctiontype", Int(n.lossfunctiontype))
    && Is(j.members[6], "layers", Int(n.layers))
    && Spelled(j.members[7].key, "layersArray") && j.members[7].value.Arr?
    && |j.members[7].value.items| == |n.list|
    && forall k :: 0 <= k < |n.list| ==> WiredLayer(c, j.members[7].value.items[k], n.list[k])
  }

  predicate WiredModel(c: Codec, j: Json, status: int, counter: int, n: NetContent) {
    && j.Obj? && |j.members| == 3
    && Is(j.members[0], "globalmodelstatus", Int(status))
    && Is(j.members[1], "trainingscounter", Int(counter))
    && Spelled(j.members[2].key, "neuralnetwork") && WiredNet(c, j.members[2].value, n)
  }

  lemma NeuronIsWired(c: Codec, n: NeuronContent)
    requires CompleteNeuron(c, NeuronModelOf(n))
    ensures WiredNeuron(c, NeuronJson(c, NeuronModelOf(n)), n)
  {
    NameIsSpelled("neurontype");
    NameIsSpelled("weights");
    NameIsSpelled("bias");
    NameIsSpelled("weightsArray");
  }

  lemma LayerIsWired(c: Codec, l: LayerContent)
    requires CompleteLayer(c, LayerModelOf(l))
    ensures WiredLayer(c, LayerJson(c, LayerModelOf(l)), l)
  {
    hide WiredNeuron, CompleteNeuron, NeuronJson, NeuronModelOf, Name;
    var m := LayerModelOf(l);
    NameIsSpelled("activationfunctiontype");
    NameIsSpelled("neurons");
    NameIsSpelled("neuronsArray");
    forall k | 0 <= k < |l.list|
      ensures WiredNeuron(c, LayerJson(c, m).members[2].value.items[k], l.list[k])
    {
      assert m.list[k] == NeuronModelOf(l.list[k]);
      NeuronIsWired(c, l.list[k]);
    }
  }

  lemma NetIsWired(c: Codec, n: NetContent)
    requires CompleteNet(c, NetModelOf(n))
    ensures WiredNet(c, NetJson(c, NetModelOf(n)), n)
  {
    hide WiredLayer, CompleteLayer, LayerJson, LayerModelOf, Name;
    var m := NetModelOf(n);
    NameIsSpelled("epoch");
    NameIsSpelled("alpha");
    NameIsSpelled("regularization");
    NameIsSpelled("lambda");
    NameIsSpelled("percentualtraining");
    NameIsSpelled("lossfunctiontype");
    NameIsSpelled("layers");
    NameIsSpelled("layersArray");
    forall k | 0 <= k < |n.list|
      ensures WiredLayer(c, NetJson(c, m).members[7].value.items[k], n.list[k])
    {
      assert m.list.value[k] == LayerModelOf(n.list[k]);
      LayerIsWired(c, n.list[k]);
    }
  }

  /** What is written for a model: every field under its own name, in this order. */
  lemma ModelIsWired(c: Codec, status: int, counter: int, n: NetContent)
    requires CompleteModel(c, Model(status, counter, Some(NetModelOf(n))))
    ensures WiredModel(c, ModelJson(c, Model(status, counter, Some(NetModelOf(n)))), status, counter, n)
  {
    hide WiredNet, CompleteNet, NetJson, NetModelOf, Name;
    NameIsSpelled("globalmodelstatus");
    NameIsSpelled("trainingscounter");
    NameIsSpelled("neuralnetwork");
    NetIsWired(c, n);
  }

  // ----- reading

  /** The first member that a search for `name` finds is the one at `i`. */
  predicate FirstNamed(ms: seq<Member>, name: string, i: nat) {
    i < |ms| && Matches(ms[i].key, name) && forall k :: 0 <= k < i ==> !Matches(ms[k].key, name)
  }

  predicate NoneNamed(ms: seq<Member>, name: string) {
    forall k :: 0 <= k < |ms| ==> !Matches(ms[k].key, name)
  }

  lemma {:induction false} FieldAt(ms: seq<Member>, name: string, i: nat)
    requires Ascii(name)
    ensures FirstNamed(ms, name, i) ==> GetObjectItem(Obj(ms), Name(name)) == Some(ms[i].value)
    ensures NoneNamed(ms, name) ==> GetObjectItem(Obj(ms), Name(name)) == None
  {
    hide Name, Matches, Lookup, SameName;
    forall k | 0 <= k < |ms| ensures SameName(Name(name), ms[k].key, false) <==> Matches(ms[k].key, name) {
      NameMatchesIff(ms[k].key, name);
    }
    if FirstNamed(ms, name, i) {
      FoundAt(ms, i, Name(name), false);
    } else if NoneNamed(ms, name) {
      FoundNowhere(ms, Name(name), false);
    }
  }

  /** What a search for `name` finds: the value of the first member of that name. */
  ghost predicate Found(ms: seq<Member>, name: string, item: Option<Json>) {
    && (NoneNamed(ms, name) ==> item == None)
    && forall i :: 0 <= i < |ms| && FirstNamed(ms, name, i) ==> item == Some(ms[i].value)
  }

  lemma FieldIsFound(ms: seq<Member>, name: string)
    requires Ascii(name)
    ensures Found(ms, name, GetObjectItem(Obj(ms), Name(name)))
  {
    hide Name, FirstNamed, NoneNamed, GetObjectItem;
    FieldAt(ms, name, 0);
    forall i | 0 <= i < |ms| && FirstNamed(ms, name, i)
      ensures GetObjectItem(Obj(ms), Name(name)) == Some(ms[i].value)
    {
      FieldAt(ms, name, i);
    }
  }

  ghost predicate ReadsInt(c: Codec, ms: seq<Member>, name: string, got: Option<int>) {
    exists item :: Found(ms, name, item)
                   && got == if item.Some? && (item.value.Int? || item.value.Float?) then Some(c.readInt(item.value))
                             else None
  }

  ghost predicate ReadsFloat(c: Codec, ms: seq<Member>, name: string, got: Option<real>) {
    exists item :: Found(ms, name, item)
                   && got == if item.Some? && (item.value.Int? || item.value.Float?) then Some(c.read(item.value))
                             else None
  }

  ghost predicate ReadsItems(ms: seq<Member>, name: string, got: Option<seq<Json>>) {
    exists item :: Found(ms, name, item)
                   && got == if item.Some? && item.value.Arr? then Some(item.value.items) else None
  }

  /** At most 20 bytes of a string are taken for the type of a neuron. */
  ghost predicate ReadsType(ms: seq<Member>, got: Option<bytes>) {
    exists item :: Found(ms, "neurontype", item)
                   && got == if item.Some? && item.value.Str? then
                               Some(if |item.value.s| <= 20 then item.value.s else item.value.s[..20])
                             else None
  }

  lemma NumberIsRead(c: Codec, ms: seq<Member>, name: string)
    requires Ascii(name)
    ensures ReadsInt(c, ms, name, IntField(c, Obj(ms), Name(name)))
    ensures ReadsFloat(c, ms, name, FloatField(c, Obj(ms), Name(name)))
  {
    hide Name, Found, GetObjectItem;
    FieldIsFound(ms, name);
  }

  lemma ItemsAreRead(ms: seq<Member>, name: string)
    requires Ascii(name)
    ensures ReadsItems(ms, name, ArrayField(Obj(ms), Name(name)))
  {
    hide Name, Found, GetObjectItem;
    FieldIsFound(ms, name);
  }

  lemma TypeIsRead(ms: seq<Member>)
    ensures ReadsType(ms, TypeField(Obj(ms)))
  {
    hide Name, Found, GetObjectItem;
    FieldIsFound(ms, "neurontype");
  }

  /** Which members of an object become the fields of a neuron. */
  ghost predicate NeuronComesFrom(c: Codec, ms: seq<Member>, n: NeuronModel) {
    && ReadsType(ms, n.neurontype) && ReadsInt(c, ms, "weights", n.weights) && ReadsFloat(c, ms, "bias", n.bias)
    && exists items ::
         && ReadsItems(ms, "weightsArray", items)
         && |n.list| == (if items == None then 0 else |items.value|)
         && forall k :: 0 <= k < |n.list| ==> n.list[k] == c.read(items.value[k])
  }

  lemma NeuronIsRead(c: Codec, ms: seq<Member>)
    ensures NeuronComesFrom(c, ms, NeuronFrom(c, Obj(ms)))
  {
    hide ReadsType, ReadsInt, ReadsFloat, ReadsItems, TypeField, IntField, FloatField, ArrayField, Name;
    TypeIsRead(ms);
    NumberIsRead(c, ms, "weights");
    NumberIsRead(c, ms, "bias");
    ItemsAreRead(ms, "weightsArray");
  }

  /** The server does not look for the activation function of a layer. */
  ghost predicate LayerComesFrom(c: Codec, ms: seq<Member>, esp: bool, l: LayerModel) {
    && (if esp then ReadsInt(c, ms, "activationfunctiontype", l.activationfunctiontype)
        else l.activationfunctiontype == None)
    && ReadsInt(c, ms, "neurons", l.neurons)
    && exists items ::
         && ReadsItems(ms, "neuronsArray", items)
         && |l.list| == (if items == None then 0 else |items.value|)
         && forall k :: 0 <= k < |l.list| ==> l.list[k] == NeuronFrom(c, items.value[k])
  }

  lemma LayerIsRead(c: Codec, ms: seq<Member>, esp: bool)
    ensures LayerComesFrom(c, ms, esp, LayerFrom(c, Obj(ms), esp))
  {
    hide ReadsInt, ReadsItems, IntField, ArrayField, NeuronFrom, Name;
    NumberIsRead(c, ms, "activationfunctiontype");
    NumberIsRead(c, ms, "neurons");
    ItemsAreRead(ms, "neuronsArray");
  }

  /** The layers are looked at only if their number is there. */
  ghost predicate NetComesFrom(c: Codec, ms: seq<Member>, esp: bool, n: NetModel) {
    && ReadsInt(c, ms, "epoch", n.epoch) && ReadsFloat(c, ms, "alpha", n.alpha)
    && ReadsInt(c, ms, "regularization", n.regularization) && ReadsFloat(c, ms, "lambda", n.lambda)
    && ReadsInt(c, ms, "percentualtraining", n.percentualtraining)
    && ReadsInt(c, ms, "lossfunctiontype", n.lossfunctiontype) && ReadsInt(c, ms, "layers", n.layers)
    && exists items ::
         && ReadsItems(ms, "layersArray", items)
         && (n.list.Some? <==> n.layers.Some? && items.Some?)
         && (n.list.Some? ==>
               && |n.list.value| == |items.value|
               && forall k :: 0 <= k < |items.value| ==> n.list.value[k] == LayerFrom(c, items.value[k], esp))
  }

  lemma NetIsRead(c: Codec, ms: seq<Member>, esp: bool)
    ensures NetComesFrom(c, ms, esp, NetFrom(c, Obj(ms), esp))
  {
    hide ReadsInt, ReadsFloat, ReadsItems, IntField, FloatField, ArrayField, LayerFrom, Name;
    NumberIsRead(c, ms, "epoch");
    NumberIsRead(c, ms, "alpha");
    NumberIsRead(c, ms, "regularization");
    NumberIsRead(c, ms, "lambda");
    NumberIsRead(c, ms, "percentualtraining");
    NumberIsRead(c, ms, "lossfunctiontype");
    NumberIsRead(c, ms, "layers");
    ItemsAreRead(ms, "layersArray");
  }

  ghost predicate ModelComesFrom(c: Codec, ms: seq<Member>, esp: bool, m: Model) {
    && (exists n :: ReadsInt(c, ms, "globalmodelstatus", n) && m.globalmodelstatus == if n == None then 0 else n.value)
    && (exists n :: ReadsInt(c, ms, "trainingscounter", n) && m.trainingscounter == if n == None then 0 else n.value)
    && exists item :: Found(ms, "neuralnetwork", item)
                      && (m.neuralnetwork.Some? <==> item.Some? && item.value.Obj?)
                      && (m.neuralnetwork.Some? ==>
                            NetComesFrom(c, item.value.members, esp, m.neuralnetwork.value))
  }

  /** What is read of any object: every field from the first member of its name, in any
      mixture of letter cases, if that member is of the right kind. */
  lemma ModelIsRead(c: Codec, ms: seq<Member>, esp: bool)
    ensures ModelFrom(c, Obj(ms), esp).Some? && ModelComesFrom(c, ms, esp, ModelFrom(c, Obj(ms), esp).value)
  {
    hide ReadsInt, IntField, NetFrom, NetComesFrom, Name, GetObjectItem, Found;
    NumberIsRead(c, ms, "globalmodelstatus");
    NumberIsRead(c, ms, "trainingscounter");
    FieldIsFound(ms, "neuralnetwork");
    var item := GetObjectItem(Obj(ms), Name("neuralnetwork"));
    if item.Some? && item.value.Obj? {
      NetIsRead(c, item.value.members, esp);
    }
  }
}
