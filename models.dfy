/**
 * The record schemas of models.py: for each record class, the labelled
 * properties (attribute name, column label, optional converter), and the
 * status snapshot with its two labelled sections.
 */
module Models {
  import opened Wrappers
  import opened Text
  import opened Ordered

  /** Section labels of the status model. */
  const ClientListLabel := "CLIENT_LIST"
  const RoutingTableLabel := "ROUTING_TABLE"

  /** The converters of utils.py a property may name as its input type. */
  datatype Converter = ParsePeer | ParseFileSize | ParseTime | ParseVAddr

  /** A `LabelProperty`: the attribute it is bound to, its label and its input type. */
  datatype Property = Property(name: string, columnLabel: string, converter: Option<Converter>)

  /** The two record classes. */
  datatype Kind = Client | Routing

  /** The attribute under which each record class stores its common name. */
  const CommonNameAttribute := "common_name"

  /**
   * The `LabelProperty` descriptors of each record class, in declaration
   * order; every class has a common name, stored as raw text.
   */
  function Properties(k: Kind): (ps: seq<Property>)
    ensures Property(CommonNameAttribute, "Common Name", None) in ps
  {
    match k
    case Client => [
      Property("client_id", "Client ID", None),
      Property("common_name", "Common Name", None),
      Property("real_address", "Real Address", Some(ParsePeer)),
      Property("bytes_received", "Bytes Received", Some(ParseFileSize)),
      Property("bytes_sent", "Bytes Sent", Some(ParseFileSize)),
      Property("connected_since", "Connected Since", Some(ParseTime))]
    case Routing => [
      Property("virtual_address", "Virtual Address", Some(ParseVAddr)),
      Property("common_name", "Common Name", None),
      Property("real_address", "Real Address", Some(ParsePeer)),
      Property("last_ref", "Last Ref", Some(ParseTime))]
  }

  /**
   * Labels and attribute names are each distinct within a schema, so the
   * label -> property table is a function.
   */
  lemma SchemaWellFormed(k: Kind)
    ensures forall i, j :: 0 <= i < j < |Properties(k)| ==>
      Properties(k)[i].columnLabel != Properties(k)[j].columnLabel && Properties(k)[i].name != Properties(k)[j].name
  {
  }

  /** The one property bound to `common_name` is the raw-text "Common Name" column. */
  lemma CommonNameProperty(k: Kind, p: Property)
    requires p in Properties(k) && p.name == CommonNameAttribute
    ensures p == Property(CommonNameAttribute, "Common Name", None)
  {
    var ps := Properties(k);
    var cn := Property(CommonNameAttribute, "Common Name", None);
    SchemaWellFormed(k);
    var i :| 0 <= i < |ps| && ps[i] == p;
    var j :| 0 <= j < |ps| && ps[j] == cn;
  }

  /**
   * No schema label starts with a section tag: the labels are written like
   * titles ("Client ID"), the tags in capitals ("CLIENT_LIST").
   */
  lemma SchemaLabelsUntagged(k: Kind)
    ensures forall p :: p in Properties(k) ==>
      !StartsWith(p.columnLabel, ClientListLabel) && !StartsWith(p.columnLabel, RoutingTableLabel)
  {
    SchemaLabelsLowerSecond(k);
    forall p | p in Properties(k)
      ensures !StartsWith(p.columnLabel, ClientListLabel) && !StartsWith(p.columnLabel, RoutingTableLabel)
    {
      LowerSecondUntagged(p.columnLabel);
    }
  }

  /** The second letter of every schema label is lower case. */
  lemma SchemaLabelsLowerSecond(k: Kind)
    ensures forall p :: p in Properties(k) ==> |p.columnLabel| >= 2 && 'a' <= p.columnLabel[1] <= 'z'
  {
    var ps := Properties(k);
    forall i | 0 <= i < |ps| ensures |ps[i].columnLabel| >= 2 && 'a' <= ps[i].columnLabel[1] <= 'z' {
      assert ps[i].columnLabel[1] in "lloeyyoia";
    }
  }

  /** A label whose second letter is lower case starts with neither upper-case tag. */
  lemma LowerSecondUntagged(l: string)
    requires |l| >= 2 && 'a' <= l[1] <= 'z'
    ensures !StartsWith(l, ClientListLabel) && !StartsWith(l, RoutingTableLabel)
  {
    if StartsWith(l, ClientListLabel) {
      StartsWithAt(l, ClientListLabel, 1);
    }
    if StartsWith(l, RoutingTableLabel) {
      StartsWithAt(l, RoutingTableLabel, 1);
    }
  }

  /**
   * `{descriptor.label: descriptor for descriptor in ps}` over the first `n`
   * properties: every label maps to the last of them carrying it.
   */
  function LabelIndex(ps: seq<Property>, n: nat): (m: map<string, Property>)
    requires n <= |ps|
    ensures forall l :: l in m ==> m[l].columnLabel == l
  {
    if n == 0 then map[]
    else LabelIndex(ps, n - 1)[ps[n - 1].columnLabel := ps[n - 1]]
  }

  /** The labels are exactly those of the first `n` properties, and each maps to one of them. */
  lemma {:induction false} LabelIndexEntries(ps: seq<Property>, n: nat)
    requires n <= |ps|
    ensures forall l :: l in LabelIndex(ps, n) ==> exists i :: 0 <= i < n && LabelIndex(ps, n)[l] == ps[i]
    ensures forall i :: 0 <= i < n ==> ps[i].columnLabel in LabelIndex(ps, n)
  {
    if n > 0 {
      LabelIndexEntries(ps, n - 1);
    }
  }

  lemma {:induction false} LabelIndexLastWins(ps: seq<Property>, n: nat, i: nat)
    requires i < n <= |ps|
    requires forall j :: i < j < n ==> ps[j].columnLabel != ps[i].columnLabel
    ensures ps[i].columnLabel in LabelIndex(ps, n) && LabelIndex(ps, n)[ps[i].columnLabel] == ps[i]
  {
    if i < n - 1 {
      LabelIndexLastWins(ps, n - 1, i);
    }
  }

  /** The label -> property table of the schema of `k`: each entry bears its own label. */
  function LabelToProperty(k: Kind): (m: map<string, Property>)
    ensures forall l :: l in m ==> m[l].columnLabel == l
  {
    LabelIndex(Properties(k), |Properties(k)|)
  }

  /** The table maps each property's label to that property, and holds nothing else. */
  lemma LabelToPropertyContents(k: Kind)
    ensures forall p :: p in Properties(k) ==> p.columnLabel in LabelToProperty(k) && LabelToProperty(k)[p.columnLabel] == p
    ensures forall l :: l in LabelToProperty(k) ==> LabelToProperty(k)[l] in Properties(k)
  {
    SchemaWellFormed(k);
    var ps := Properties(k);
    LabelIndexEntries(ps, |ps|);
    forall i | 0 <= i < |ps| ensures LabelIndex(ps, |ps|)[ps[i].columnLabel] == ps[i] {
      LabelIndexLastWins(ps, |ps|, i);
    }
  }

  /** A field as stored on a record: the raw text, or what a converter made of it. */
  datatype Field<V> = Text(raw: string) | Converted(value: V)

  /** A `Client` or `Routing` instance: the attributes that were assigned. */
  datatype Record<V> = Record(kind: Kind, attrs: map<string, Field<V>>)

  /**
   * `text_type(r.common_name)`. The common name has no converter, so an
   * assigned one is raw text; an unassigned one reads as the property's
   * default, `None`, whose text is "None".
   */
  function CommonName<V>(r: Record<V>): (name: string)
    ensures name != "None" ==> CommonNameAttribute in r.attrs && r.attrs[CommonNameAttribute] == Text(name)
  {
    if CommonNameAttribute in r.attrs && r.attrs[CommonNameAttribute].Text? then r.attrs[CommonNameAttribute].raw
    else "None"
  }

  /** `Status`: the two sections, ordered maps from common name to record. */
  datatype Status<V> = Status(clientList: OrderedDict<Record<V>>, routingTable: OrderedDict<Record<V>>)
}
