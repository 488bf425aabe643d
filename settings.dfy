/**
 * The project settings the core reads (django.conf.settings). Their values
 * are deployment configuration, so the model takes them as a parameter.
 */
module Settings {

  datatype Config = Config(
    repGet: map<int, int>,   // REP_GET_SETTING: reward type -> reputation amount
    repNeed: map<int, int>,  // REP_NEED_SETTING: capability -> reputation threshold
    repTopicReply: int,      // REP_TOPIC_REPLY
    repTopicLike: int,       // REP_TOPIC_LIKE
    repUserInit: int,        // REP_USER_INIT
    userCreateTopic: int,    // USER_CREATE_TOPIC
    userCreateTool: int      // USER_CREATE_TOOL
  )
}
