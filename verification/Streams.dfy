/** Names shared by the services that know streams by application and name. */
module Streams {
  datatype StreamKey = StreamKey(app: string, name: string)
}
