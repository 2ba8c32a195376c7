/** A host entry of an SSH configuration (SshConfigParser/SshHost.cs): a bag of named
    properties behind an indexer, with typed accessors for the properties the viewer uses. */
module Ssh {
  import opened Wrappers

  /** The values the properties hold: strings from the configuration file, and the remote
      flag. `Null` is a property stored as, or read back as, null. */
  datatype Obj = Null | Str(s: string) | Bool(b: bool)

  /** `object.ToString()` of a value that is not null; `bool` prints as "True" or "False". */
  function Render(o: Obj): string
    requires !o.Null?
  {
    match o
    case Str(s) => s
    case Bool(b) => if b then "True" else "False"
  }

  /** `o?.ToString()`. */
  function AsText(o: Obj): (r: NString)
    ensures r.None? <==> o.Null?
    ensures o.Str? ==> r == Some(o.s)
  {
    if o.Null? then None else Some(Render(o))
  }

  /** The named properties; each is stored under its own name. */
  datatype Property = IdentityFile | Password | Host | Name | User | Port | LogsFolder | IsRemote

  /** `nameof(...)`: the key a named property is stored under. */
  function Key(p: Property): (r: string)
    ensures r != ""
  {
    match p
    case IdentityFile => "IdentityFile"
    case Password => "Password"
    case Host => "Host"
    case Name => "Name"
    case User => "User"
    case Port => "Port"
    case LogsFolder => "LogsFolder"
    case IsRemote => "IsRemote"
  }

  /** Distinct properties are stored under distinct keys. */
  lemma KeyInjective(p: Property, q: Property)
    ensures Key(p) == Key(q) <==> p == q
  {
  }

  /** The indexer getter on a property dictionary: the stored value, or null when absent. */
  function Get(properties: map<string, Obj>, key: string): (r: Obj)
    ensures key !in properties ==> r.Null?
    ensures key in properties ==> r == properties[key]
  {
    if key in properties then properties[key] else Null
  }

  /** `Port`: the stored port as text, "22" when there is none. */
  function PortOf(properties: map<string, Obj>): (r: string)
    ensures Get(properties, Key(Port)).Null? ==> r == "22"
    ensures Get(properties, Key(Port)).Str? ==> r == Get(properties, Key(Port)).s
  {
    match AsText(Get(properties, Key(Port)))
    case Some(s) => s
    case None => "22"
  }

  /** `IsRemote`: the stored flag, `true` when there is none; a stored string fails the cast
      to `bool`, which is `None` here. */
  function IsRemoteOf(properties: map<string, Obj>): (r: Option<bool>)
    ensures r.None? <==> Get(properties, Key(IsRemote)).Str?
    ensures Get(properties, Key(IsRemote)).Null? ==> r == Some(true)
    ensures Get(properties, Key(IsRemote)).Bool? ==> r == Some(Get(properties, Key(IsRemote)).b)
  {
    match Get(properties, Key(IsRemote))
    case Null => Some(true)
    case Bool(b) => Some(b)
    case Str(_) => None
  }

  /** After an assignment the key reads back the assigned value and every other key reads as
      before. */
  lemma GetAfterSet(properties: map<string, Obj>, key: string, value: Obj, other: string)
    ensures Get(properties[key := value], key) == value
    ensures other != key ==> Get(properties[key := value], other) == Get(properties, other)
  {
  }

  /** Assigning null keeps the key among the keys but reads as absent. */
  lemma SetNullReadsAbsent(properties: map<string, Obj>, key: string)
    ensures key in properties[key := Null].Keys
    ensures AsText(Get(properties[key := Null], key)) == AsText(Get(map[], key))
  {
  }

  /** A stored port, once cleared, falls back to the default again. */
  lemma PortDefault(properties: map<string, Obj>, port: string)
    ensures PortOf(properties[Key(Port) := Str(port)]) == port
    ensures PortOf(properties[Key(Port) := Null]) == "22"
    ensures PortOf(map[]) == "22"
  {
  }

  /** The remote flag reads back what was assigned, and is on for a fresh host. */
  lemma IsRemoteRoundTrip(properties: map<string, Obj>, value: bool)
    ensures IsRemoteOf(properties[Key(IsRemote) := Bool(value)]) == Some(value)
    ensures IsRemoteOf(map[]) == Some(true)
  {
  }

  /** `SshHost`. The SFTP client it carries is not part of this model. */
  class SshHost {
    /** `Properties`: every property of the host, explicitly named or not. */
    var properties: map<string, Obj>

    constructor ()
      ensures properties == map[]
    {
      properties := map[];
    }

    /** The indexer getter `this[key]`. */
    function Item(key: string): (r: Obj)
      reads this
      ensures key !in properties ==> r.Null?
      ensures key in properties ==> r == properties[key]
    {
      Get(properties, key)
    }

    /** The indexer setter `this[key] = value`: adds or overwrites that key alone. */
    method SetItem(key: string, value: Obj)
      modifies this
      ensures properties == old(properties)[key := value]
      ensures Item(key) == value
      ensures forall k :: k != key ==> Item(k) == old(Item(k))
    {
      properties := properties[key := value];
    }

    /** The getter of a string property: the stored value as text, null when absent. */
    function Text(p: Property): (r: NString)
      reads this
      requires p != Port && p != IsRemote
      ensures r.None? <==> Item(Key(p)).Null?
      ensures Item(Key(p)).Str? ==> r == Some(Item(Key(p)).s)
    {
      AsText(Item(Key(p)))
    }

    /** The setter of a string property: stores the text, or null. */
    method SetText(p: Property, value: NString)
      modifies this
      requires p != IsRemote
      ensures properties == old(properties)[Key(p) := if value.Some? then Str(value.value) else Null]
      ensures p != Port ==> Text(p) == value
      ensures p == Port ==> PortValue() == if value.Some? then value.value else "22"
    {
      SetItem(Key(p), if value.Some? then Str(value.value) else Null);
    }

    /** `Port`. */
    function PortValue(): (r: string)
      reads this
      ensures Item(Key(Port)).Null? ==> r == "22"
      ensures Item(Key(Port)).Str? ==> r == Item(Key(Port)).s
    {
      PortOf(properties)
    }

    /** `IsRemote`; `None` when the stored value is not a `bool`. */
    function Remote(): (r: Option<bool>)
      reads this
      ensures Item(Key(IsRemote)).Null? ==> r == Some(true)
      ensures r.None? <==> Item(Key(IsRemote)).Str?
    {
      IsRemoteOf(properties)
    }

    /** The `IsRemote` setter. */
    method SetRemote(value: bool)
      modifies this
      ensures properties == old(properties)[Key(IsRemote) := Bool(value)]
      ensures Remote() == Some(value)
    {
      SetItem(Key(IsRemote), Bool(value));
    }

    /** `Keys`: the keys of every stored property. */
    function Keys(): (r: set<string>)
      reads this
      ensures forall k :: k in r <==> k in properties
    {
      properties.Keys
    }

    /** `ToString`: the host's full name. */
    function Display(): (r: NString)
      reads this
      ensures r.None? <==> Item(Key(Name)).Null?
      ensures Item(Key(Name)).Str? ==> r == Some(Item(Key(Name)).s)
    {
      Text(Name)
    }
  }
}
