/** Types that several parts of the model share. */
module Common {

  datatype Option<T> = None | Some(value: T)

  /** A user's S3 settings, in memory and equally as the ten S3 columns of a users row. */
  datatype S3Config = S3Config(
    enabled: bool, endpoint: string, region: string, bucket: string, accessKey: string, secretKey: string,
    pathStyle: bool, publicURL: string, mediaDelivery: string, retentionDays: int)
}
