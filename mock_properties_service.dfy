/** The in-memory stand-in for Apps Script's PropertiesService in
    src/mocks/MockPropertiesService.ts: one string-to-string dictionary, owned
    by the service and changed in place through the accessor object that
    `getScriptProperties` hands out. */
module MockProperties {
  import opened Wrappers

  type Properties = map<string, string>

  /** The service: it owns the dictionary. */
  class MockPropertiesService {
    var properties: Properties

    /** Construction from an initial dictionary. A map is a value, so the
        service's dictionary is a copy: later changes to the caller's
        dictionary cannot show through. */
    constructor (initialProperties: Properties)
      ensures properties == initialProperties
    {
      properties := initialProperties;
    }

    /** Construction with the default argument `{}`. */
    constructor Empty()
      ensures properties == map[]
    {
      properties := map[];
    }

    /** getScriptProperties: a fresh accessor object over this service's
        dictionary; every accessor of one service shares that dictionary. */
    method GetScriptProperties() returns (accessor: ScriptProperties)
      ensures fresh(accessor) && accessor.service == this
    {
      accessor := new ScriptProperties(this);
    }
  }

  /** The object of six closures `getScriptProperties` returns; each closure
      reaches the dictionary through the service. */
  class ScriptProperties {
    const service: MockPropertiesService

    constructor (service: MockPropertiesService)
      ensures this.service == service
    {
      this.service := service;
    }

    /** getProperty: the stored value, or null when the key is absent. */
    method GetProperty(key: string) returns (value: Option<string>)
      ensures value.Some? <==> key in service.properties
      ensures value.Some? ==> value.value == service.properties[key]
    {
      if key in service.properties {
        value := Some(service.properties[key]);
      } else {
        value := None;
      }
    }

    /** getProperties: a copy of the whole dictionary. */
    method GetProperties() returns (snapshot: Properties)
      ensures snapshot == service.properties
    {
      snapshot := service.properties;
    }

    /** setProperty: one key set (added or overwritten). */
    method SetProperty(key: string, value: string)
      modifies service
      ensures service.properties == old(service.properties)[key := value]
    {
      service.properties := service.properties[key := value];
    }

    /** setProperties: `Object.assign`, every key of `props` set to its value
        and every other key kept. */
    method SetProperties(props: Properties)
      modifies service
      ensures service.properties == old(service.properties) + props
    {
      service.properties := service.properties + props;
    }

    /** deleteAllProperties: the dictionary replaced by an empty one. */
    method DeleteAllProperties()
      modifies service
      ensures service.properties == map[]
    {
      service.properties := map[];
    }

    /** deleteProperty: one key removed, if present. */
    method DeleteProperty(key: string)
      modifies service
      ensures service.properties == old(service.properties) - {key}
    {
      service.properties := service.properties - {key};
    }
  }

  /** A `setProperty` through one accessor, then `getProperty` through
      another of the same service: the key reads the new value, and any
      other key reads as it did before the set. */
  method SetThenGet(writer: ScriptProperties, reader: ScriptProperties, key: string, value: string,
                    other: string)
    returns (got: Option<string>, otherBefore: Option<string>, otherAfter: Option<string>)
    requires writer.service == reader.service
    modifies writer.service
    ensures got == Some(value)
    ensures other != key ==> otherAfter == otherBefore
  {
    otherBefore := reader.GetProperty(other);
    writer.SetProperty(key, value);
    got := reader.GetProperty(key);
    otherAfter := reader.GetProperty(other);
  }

  /** `setProperties` (`Object.assign`) through one accessor, then reads
      through another: a key it is given reads the given value, and a key it
      is not given reads as before. */
  method AssignThenGet(writer: ScriptProperties, reader: ScriptProperties, update: Properties, key: string)
    returns (before: Option<string>, after: Option<string>)
    requires writer.service == reader.service
    modifies writer.service
    ensures key in update ==> after == Some(update[key])
    ensures key !in update ==> after == before
  {
    before := reader.GetProperty(key);
    writer.SetProperties(update);
    after := reader.GetProperty(key);
  }

  /** `deleteProperty` through one accessor, then reads through another: the
      key reads null, and any other key reads as before. */
  method DeleteThenGet(writer: ScriptProperties, reader: ScriptProperties, key: string, other: string)
    returns (got: Option<string>, otherBefore: Option<string>, otherAfter: Option<string>)
    requires writer.service == reader.service
    modifies writer.service
    ensures got == None
    ensures other != key ==> otherAfter == otherBefore
  {
    otherBefore := reader.GetProperty(other);
    writer.DeleteProperty(key);
    got := reader.GetProperty(key);
    otherAfter := reader.GetProperty(other);
  }

  /** Two accessors of one service see each other's writes, and a snapshot
      taken before a write does not change with it. */
  method SharedDictionary(service: MockPropertiesService, key: string, value: string)
    returns (before: Properties, seen: Option<string>)
    modifies service
    ensures before == old(service.properties)
    ensures seen == Some(value)
    ensures service.properties == old(service.properties)[key := value]
  {
    var writer := service.GetScriptProperties();
    var reader := service.GetScriptProperties();
    before := reader.GetProperties();
    writer.SetProperty(key, value);
    seen := reader.GetProperty(key);
  }

  /** The store-and-retrieve scenario: an initial key reads back, a set key
      reads back, and a deleted key reads as null. */
  method StoreAndRetrieve() returns (initial: Option<string>, stored: Option<string>, deleted: Option<string>)
    ensures initial == Some("val")
    ensures stored == Some("VALUE")
    ensures deleted == None
  {
    var service := new MockPropertiesService(map["INIT" := "val"]);
    var props := service.GetScriptProperties();
    initial := props.GetProperty("INIT");
    props.SetProperty("KEY", "VALUE");
    stored := props.GetProperty("KEY");
    props.DeleteProperty("INIT");
    deleted := props.GetProperty("INIT");
  }
}
