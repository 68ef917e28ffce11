/**
 * The configuration-driven part of the `Media` model's construction: the
 * mass-assignable field list and the attribute casts.
 */
module MediaModel {

  /** The fields every media asset declares as fillable. */
  const BaseFillable: seq<string> := ["uuid", "filename", "alt_text", "caption", "width", "height"]

  /** One entry of `twill.media_library.extra_metadatas_fields`. */
  datatype ExtraField = ExtraField(name: string)

  /** The names of the configured extra fields, in configuration order. */
  function ExtraFieldNames(extraFields: seq<ExtraField>): (names: seq<string>)
    ensures |names| == |extraFields|
    ensures forall i :: 0 <= i < |extraFields| ==> names[i] == extraFields[i].name
  {
    seq(|extraFields|, i requires 0 <= i < |extraFields| => extraFields[i].name)
  }

  class Media {
    /** `$fillable`: the attributes that may be mass-assigned. */
    var fillable: seq<string>
    /** `$casts`: attribute name -> cast type. */
    var casts: map<string, string>

    /**
     * `__construct`: the fillable list is the base fields followed by the
     * configured extra field names; every configured translatable field is
     * cast to JSON; every other inherited cast is kept. An absent configuration
     * list is the empty sequence.
     */
    constructor (extraFields: seq<ExtraField>, translatableFields: seq<string>, inheritedCasts: map<string, string>)
      ensures fillable == BaseFillable + ExtraFieldNames(extraFields)
      ensures casts.Keys == inheritedCasts.Keys + (set f | f in translatableFields)
      ensures forall f :: f in translatableFields ==> casts[f] == "json"
      ensures forall k :: k in inheritedCasts && k !in translatableFields ==> casts[k] == inheritedCasts[k]
    {
      var jsonCasts := inheritedCasts;
      for i := 0 to |translatableFields|
        invariant jsonCasts.Keys == inheritedCasts.Keys + (set f | f in translatableFields[..i])
        invariant forall f :: f in translatableFields[..i] ==> jsonCasts[f] == "json"
        invariant forall k :: k in inheritedCasts && k !in translatableFields[..i] ==> jsonCasts[k] == inheritedCasts[k]
      {
        assert translatableFields[..i + 1] == translatableFields[..i] + [translatableFields[i]];
        jsonCasts := jsonCasts[translatableFields[i] := "json"];
      }
      assert translatableFields[..|translatableFields|] == translatableFields;
      fillable := BaseFillable + ExtraFieldNames(extraFields);
      casts := jsonCasts;
    }
  }

  /**
   * The base fields stay fillable whatever the configuration says, and every
   * configured extra field becomes fillable.
   */
  lemma FillableCoversConfiguration(extraFields: seq<ExtraField>, key: string)
    ensures key in BaseFillable ==> key in BaseFillable + ExtraFieldNames(extraFields)
    ensures (exists i :: 0 <= i < |extraFields| && extraFields[i].name == key) ==>
              key in BaseFillable + ExtraFieldNames(extraFields)
  {
    if exists i :: 0 <= i < |extraFields| && extraFields[i].name == key {
      var i :| 0 <= i < |extraFields| && extraFields[i].name == key;
      assert (BaseFillable + ExtraFieldNames(extraFields))[|BaseFillable| + i] == key;
    }
  }
}
