/** The two record shapes of the price pipeline, as dictionaries of JSON scalars. */
module MinuteRecords {
  import opened PyValues

  /** One element of a ticker's `intraday-prices` list: the nine fields requested from the provider. */
  datatype Bar = Bar(date: string, minute: string,
                     marketOpen: Value, marketHigh: Value, marketLow: Value, marketClose: Value,
                     marketVolume: Value, marketNotional: Value, marketNumberOfTrades: Value)

  /** One record of `aggregate`'s output: a bar with `date`/`minute` replaced by `datetime`, stamped with its security. */
  datatype Minute = Minute(securityId: Value, datetime: Value,
                           marketOpen: Value, marketHigh: Value, marketLow: Value, marketClose: Value,
                           marketVolume: Value, marketNotional: Value, marketNumberOfTrades: Value)
}
