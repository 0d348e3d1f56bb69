/** The JSON document the Glomex integration API answers with, as an explicit record. */
module ApiData {
  import opened Wrappers
  import opened Json

  /**
   * A key of a JSON object that the code reads with `obj[key]`, where a missing key raises
   * but a `null` value does not.
   */
  datatype Field<+T> = Absent | Null | Given(value: T) {
    /** `obj.get(key)`: a missing key and a `null` value both read as `None`. */
    function Get(): Option<T> {
      if Given? then Some(value) else None
    }
  }

  /** One `format_id: url` entry of a video's `source` object, in the object's order. */
  datatype Source = Source(formatId: string, url: string)

  /**
   * One element of `videos`. The fields read with `[...]` tell a missing key from a `null`; on the
   * fields read with `.get`, `None` stands for both. `clip_duration` and `created_at` keep their JSON value.
   */
  datatype VideoItem = VideoItem(
    errorCode: Option<string>,
    geoLocations: Field<seq<string>>,
    clipId: Option<string>,
    title: Field<string>,
    description: Option<string>,
    imageUrl: Option<string>,
    clipDuration: Value,
    createdAt: Value,
    source: Option<seq<Source>>)

  /** The whole answer, read as `api_data['videos']`. */
  datatype ApiResponse = ApiResponse(videos: Field<seq<VideoItem>>)
}
